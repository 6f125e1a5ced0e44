/** The batch collector: one task that takes items off the queue, forms batches and dispatches them.

    Each poll of its `select!` is one element of the input: what the channel has ready, the
    clock, and the queue depth. The receive branch comes first, the timer branch is enabled only
    while a deadline is armed, and the loop ends when neither branch can run. */
module Collector {
  import opened Common

  datatype Item = Item(id: nat, enqueuedAt: real, warmup: bool)

  datatype Received = Ready(item: Item, waiterGone: bool) | Pending | Closed

  datatype Poll = Poll(recv: Received, now: real, depth: nat)

  datatype Tunables = Tunables(maxBatch: nat, baseTimeout: real, adaptive: bool, minTimeout: real,
                               queueThreshold: nat, queueTimeout: real, rejectLate: bool)

  ghost predicate Sane(cfg: Tunables) { cfg.baseTimeout >= 0.0 && cfg.minTimeout >= 0.0 }

  /** Why a batch was dispatched: alone (no batching), full, a warmup/live boundary, or the timer. */
  datatype Cause = Alone | Full | Boundary | Timer

  /** `since`: when its first item was taken; `depth`: how deep the queue behind it was then; `due`: the deadline then
      armed; `at`: when it was dispatched. */
  datatype Dispatch = Dispatch(items: seq<Item>, cause: Cause, since: real, depth: nat, due: real, at: real)

  datatype Progress = Progress(dispatched: seq<Dispatch>, rejected: seq<Item>, dropped: seq<Item>,
                               buffer: seq<Item>, deadline: Option<real>, since: real, depth: nat)

  // ----- Timeouts -----

  function RealMax(a: real, b: real): real { if a <= b then b else a }

  function RealMin(a: real, b: real): real { if a <= b then a else b }

  /** How pressed the collector is, from the fill of the batch and the depth of the queue behind it. */
  function Pressure(batchLen: nat, depth: nat, maxBatch: nat, threshold: nat): real {
    var fill := batchLen as real / Max(maxBatch, 1) as real;
    var queue := if threshold > 0 then RealMin(depth as real / threshold as real, 1.0) else 0.0;
    RealMax(fill, queue)
  }

  function AdaptiveTimeout(batchLen: nat, depth: nat, maxBatch: nat, base: real, min: real, threshold: nat): real {
    if batchLen >= maxBatch then 0.0
    else Scaled(Pressure(batchLen, depth, maxBatch, threshold), base, min)
  }

  function Scaled(pressure: real, base: real, min: real): real {
    RealMax(base * RealMax(1.0 - pressure * 0.99, 0.0), min)
  }

  lemma QuotientMonotone(a: nat, b: nat, d: nat)
    requires a <= b && d > 0
    ensures 0.0 <= a as real / d as real <= b as real / d as real
  {
    assert b as real / d as real - a as real / d as real == (b - a) as real / d as real;
  }

  lemma PressureMonotone(a: nat, b: nat, depth: nat, depth2: nat, maxBatch: nat, threshold: nat)
    requires a <= b < maxBatch && depth <= depth2
    ensures 0.0 <= Pressure(a, depth, maxBatch, threshold) <= Pressure(b, depth2, maxBatch, threshold) <= 1.0
  {
    QuotientMonotone(a, b, maxBatch);
    QuotientMonotone(b, maxBatch, maxBatch);
    if threshold > 0 {
      QuotientMonotone(depth, depth2, threshold);
    }
  }

  lemma ProductNonNegative(c: real, d: real)
    requires c >= 0.0 && d >= 0.0
    ensures c * d >= 0.0
  {
  }

  lemma ProductMonotone(c: real, x: real, y: real)
    requires c >= 0.0 && x <= y
    ensures c * x <= c * y
  {
    ProductNonNegative(c, y - x);
    assert c * (y - x) == c * y - c * x;
  }

  lemma RealMaxMonotone(x: real, y: real, m: real)
    requires x <= y
    ensures m <= RealMax(x, m) <= RealMax(y, m)
  {
  }

  lemma DiscountShrinks(p: real, q: real)
    requires 0.0 <= p <= q <= 1.0
    ensures 0.0 <= RealMax(1.0 - q * 0.99, 0.0) <= RealMax(1.0 - p * 0.99, 0.0) <= 1.0
  {
  }

  lemma ScaledShrinks(p: real, q: real, base: real, min: real)
    requires 0.0 <= p <= q <= 1.0 && base >= 0.0
    ensures min <= Scaled(q, base, min) <= Scaled(p, base, min) <= RealMax(base, min)
  {
    var x, y := RealMax(1.0 - q * 0.99, 0.0), RealMax(1.0 - p * 0.99, 0.0);
    DiscountShrinks(p, q);
    ProductMonotone(base, x, y);
    ProductMonotone(base, y, 1.0);
    RealMaxMonotone(base * x, base * y, min);
    RealMaxMonotone(base * y, base * 1.0, min);
  }

  /** The wait lies between the minimum and the base, and neither a fuller batch nor a deeper queue lengthens it. */
  lemma AdaptiveTimeoutShrinks(a: nat, b: nat, depth: nat, depth2: nat, maxBatch: nat, base: real, min: real,
                               threshold: nat)
    requires a <= b && depth <= depth2 && base >= 0.0 && min >= 0.0
    ensures 0.0 <= AdaptiveTimeout(b, depth2, maxBatch, base, min, threshold)
                <= AdaptiveTimeout(a, depth, maxBatch, base, min, threshold)
    ensures a < maxBatch ==> min <= AdaptiveTimeout(a, depth, maxBatch, base, min, threshold) <= RealMax(base, min)
  {
    if a < maxBatch {
      PressureMonotone(a, if b < maxBatch then b else a, depth, depth2, maxBatch, threshold);
      ScaledShrinks(Pressure(a, depth, maxBatch, threshold),
                    Pressure(if b < maxBatch then b else a, depth2, maxBatch, threshold), base, min);
    }
  }

  /** How far the queue has filled towards the depth at which waiting is pointless. */
  function QueueShare(depth: nat, threshold: nat): real {
    if threshold == 0 then 0.0 else if depth >= threshold then 1.0 else depth as real / threshold as real
  }

  /** The wait of an open batch, by its value: the base, less up to 99 per cent of it in proportion to how full the
      batch is or how full the queue, whichever leaves less, and never below the minimum. */
  function LeastWait(batchLen: nat, depth: nat, maxBatch: nat, base: real, min: real, threshold: nat): real
    requires batchLen < maxBatch
  {
    var byFill := base * (1.0 - 0.99 * (batchLen as real / maxBatch as real));
    var byQueue := base * (1.0 - 0.99 * QueueShare(depth, threshold));
    var least := if byFill <= byQueue then byFill else byQueue;
    if least < min then min else least
  }

  lemma QueueShareIs(depth: nat, threshold: nat)
    requires threshold > 0
    ensures RealMin(depth as real / threshold as real, 1.0) == QueueShare(depth, threshold)
  {
    if depth >= threshold {
      QuotientMonotone(threshold, depth, threshold);
    } else {
      QuotientMonotone(depth, threshold, threshold);
    }
  }

  lemma LargerShareLeavesLess(base: real, x: real, y: real)
    requires base >= 0.0 && x <= y
    ensures base * (1.0 - 0.99 * y) <= base * (1.0 - 0.99 * x)
  {
    ProductMonotone(base, 1.0 - 0.99 * y, 1.0 - 0.99 * x);
  }

  lemma PressureIs(batchLen: nat, depth: nat, maxBatch: nat, threshold: nat)
    requires batchLen < maxBatch
    ensures var fill, share := batchLen as real / maxBatch as real, QueueShare(depth, threshold);
            && fill <= 1.0 && share <= 1.0
            && Pressure(batchLen, depth, maxBatch, threshold) == if fill <= share then share else fill
  {
    QuotientMonotone(batchLen, maxBatch, maxBatch);
    if threshold > 0 {
      QueueShareIs(depth, threshold);
    }
  }

  /** The larger of two shares leaves the lesser wait. */
  lemma ScaledIs(x: real, y: real, base: real, min: real)
    requires x <= 1.0 && y <= 1.0 && base >= 0.0
    ensures var a, b := base * (1.0 - 0.99 * x), base * (1.0 - 0.99 * y);
            var least := if a <= b then a else b;
            Scaled(if x <= y then y else x, base, min) == if least < min then min else least
  {
    var p := if x <= y then y else x;
    assert RealMax(1.0 - p * 0.99, 0.0) == 1.0 - 0.99 * p;
    if x <= y {
      LargerShareLeavesLess(base, x, y);
    } else {
      LargerShareLeavesLess(base, y, x);
    }
  }

  lemma AdaptiveTimeoutIs(batchLen: nat, depth: nat, maxBatch: nat, base: real, min: real, threshold: nat)
    requires base >= 0.0
    ensures AdaptiveTimeout(batchLen, depth, maxBatch, base, min, threshold) ==
              if batchLen >= maxBatch then 0.0 else LeastWait(batchLen, depth, maxBatch, base, min, threshold)
  {
    if batchLen < maxBatch {
      PressureIs(batchLen, depth, maxBatch, threshold);
      ScaledIs(batchLen as real / maxBatch as real, QueueShare(depth, threshold), base, min);
    }
  }

  function Timeout(cfg: Tunables, batchLen: nat, depth: nat): real {
    if cfg.adaptive
    then AdaptiveTimeout(batchLen, depth, cfg.maxBatch, cfg.baseTimeout, cfg.minTimeout, cfg.queueThreshold)
    else cfg.baseTimeout
  }

  // ----- What becomes of a dequeued item -----

  /** It waited too long and is answered with 503. */
  predicate Late(cfg: Tunables, item: Item, now: real) {
    cfg.queueTimeout > 0.0 && cfg.rejectLate && now - item.enqueuedAt > cfg.queueTimeout
  }

  datatype Fate = Nothing | Reject | Discard | Survive

  function FateOf(cfg: Tunables, p: Poll): Fate {
    if !p.recv.Ready? then Nothing
    else if Late(cfg, p.recv.item, p.now) then Reject
    else if p.recv.waiterGone then Discard
    else Survive
  }

  /** The items that met a fate, in the order they were dequeued. */
  function ItemsOf(cfg: Tunables, polls: seq<Poll>, fate: Fate): seq<Item>
    requires fate != Nothing
  {
    if polls == [] then []
    else
      var p := polls[|polls| - 1];
      ItemsOf(cfg, polls[..|polls| - 1], fate) + if FateOf(cfg, p) == fate then [p.recv.item] else []
  }

  lemma ItemsOfAppend(cfg: Tunables, polls: seq<Poll>, k: nat, fate: Fate)
    requires k < |polls| && fate != Nothing
    ensures ItemsOf(cfg, polls[..k + 1], fate) ==
              ItemsOf(cfg, polls[..k], fate) + if FateOf(cfg, polls[k]) == fate then [polls[k].recv.item] else []
  {
    assert polls[..k + 1][..k] == polls[..k];
  }

  // ----- The two branches -----

  function Flush(o: Progress, cause: Cause, now: real): Progress {
    var due := if o.deadline.Some? then o.deadline.value else now;
    o.(dispatched := o.dispatched + [Dispatch(o.buffer, cause, o.since, o.depth, due, now)],
       buffer := [], deadline := None)
  }

  /** Warmup and live items never share a batch: flush the open one when the next item is of the other kind. */
  function SplitKinds(o: Progress, item: Item, now: real): Progress {
    if o.buffer != [] && o.buffer[0].warmup != item.warmup then Flush(o, Boundary, now) else o
  }

  /** Push, then dispatch when full, or arm the timer when it is not armed. */
  function PushItem(cfg: Tunables, o: Progress, item: Item, now: real, depth: nat): Progress {
    var b := o.(buffer := o.buffer + [item], since := if o.buffer == [] then now else o.since,
                depth := if o.buffer == [] then depth else o.depth);
    if |b.buffer| >= cfg.maxBatch then Flush(b, Full, now)
    else if b.deadline.None? then b.(deadline := Some(now + Timeout(cfg, |b.buffer|, depth)))
    else b
  }

  function TakeItem(cfg: Tunables, o: Progress, item: Item, now: real, depth: nat): Progress {
    PushItem(cfg, SplitKinds(o, item, now), item, now, depth)
  }

  /** Without batching every item is a batch of its own. */
  function SendAlone(o: Progress, item: Item, now: real): Progress {
    o.(dispatched := o.dispatched + [Dispatch([item], Alone, now, 0, now, now)])
  }

  function Fire(o: Progress, now: real): Progress {
    if o.buffer != [] then Flush(o, Timer, now) else o.(deadline := None)
  }

  // ----- Invariant -----

  function Flatten(ds: seq<Dispatch>): seq<Item> {
    if ds == [] then [] else Flatten(ds[..|ds| - 1]) + ds[|ds| - 1].items
  }

  ghost predicate Homogeneous(items: seq<Item>) { forall i | 0 <= i < |items| :: items[i].warmup == items[0].warmup }

  /** How long a batch may wait for company. */
  ghost predicate WaitsRight(cfg: Tunables, since: real, depth: nat, due: real) {
    if !cfg.adaptive then due == since + cfg.baseTimeout
    else
      && 1 < cfg.maxBatch
      && due == since + LeastWait(1, depth, cfg.maxBatch, cfg.baseTimeout, cfg.minTimeout, cfg.queueThreshold)
  }

  ghost predicate GoodDispatch(cfg: Tunables, d: Dispatch) {
    && 1 <= |d.items| <= Max(1, cfg.maxBatch)
    && Homogeneous(d.items)
    && (d.cause.Alone? ==> cfg.maxBatch <= 1)
    && (d.cause.Full? ==> |d.items| == cfg.maxBatch)
    && (d.cause.Boundary? || d.cause.Timer? ==> |d.items| < cfg.maxBatch && WaitsRight(cfg, d.since, d.depth, d.due))
    && (d.cause.Timer? ==> d.due <= d.at)
  }

  /** The first item after dispatch `k` in the order of survival. */
  ghost function Following(ds: seq<Dispatch>, buffer: seq<Item>, k: nat): Option<Item>
    requires k < |ds|
  {
    if k + 1 < |ds| then (if ds[k + 1].items == [] then None else Some(ds[k + 1].items[0]))
    else if buffer == [] then None else Some(buffer[0])
  }

  /** A boundary flush is followed by an item of the other kind. */
  ghost predicate RealBoundary(ds: seq<Dispatch>, buffer: seq<Item>, k: nat)
    requires k < |ds|
  {
    && ds[k].items != [] && Following(ds, buffer, k).Some?
    && Following(ds, buffer, k).value.warmup != ds[k].items[0].warmup
  }

  ghost predicate GoodProgress(cfg: Tunables, o: Progress) {
    && (forall k | 0 <= k < |o.dispatched| :: GoodDispatch(cfg, o.dispatched[k]))
    && (forall k | 0 <= k < |o.dispatched| && o.dispatched[k].cause.Boundary? ::
          RealBoundary(o.dispatched, o.buffer, k))
    && |o.buffer| < Max(1, cfg.maxBatch)
    && Homogeneous(o.buffer)
    && (o.deadline.Some? <==> o.buffer != [])
    && (o.deadline.Some? ==> WaitsRight(cfg, o.since, o.depth, o.deadline.value))
  }

  lemma FlattenAppend(ds: seq<Dispatch>, d: Dispatch)
    ensures Flatten(ds + [d]) == Flatten(ds) + d.items
  {
    assert (ds + [d])[..|ds|] == ds;
  }

  /** Every item taken so far and not rejected or dropped, in order. */
  function Kept(o: Progress): seq<Item> { Flatten(o.dispatched) + o.buffer }

  lemma FlushKeepsOrder(o: Progress, cause: Cause, now: real)
    ensures Kept(Flush(o, cause, now)) == Kept(o)
  {
    FlattenAppend(o.dispatched, Flush(o, cause, now).dispatched[|o.dispatched|]);
  }

  lemma TakeItemKeepsOrder(cfg: Tunables, o: Progress, item: Item, now: real, depth: nat)
    ensures Kept(TakeItem(cfg, o, item, now, depth)) == Kept(o) + [item]
  {
    FlushKeepsOrder(o, Boundary, now);
    var a := SplitKinds(o, item, now);
    var b := a.(buffer := a.buffer + [item], since := if a.buffer == [] then now else a.since,
                depth := if a.buffer == [] then depth else a.depth);
    assert Kept(b) == Kept(a) + [item];
    FlushKeepsOrder(b, Full, now);
  }

  lemma FlushKeeps(cfg: Tunables, o: Progress, cause: Cause, now: real)
    requires GoodProgress(cfg, o) && o.buffer != []
    requires cause.Boundary? || (cause.Timer? && o.deadline.value <= now)
    ensures var p := Flush(o, cause, now);
            && p.buffer == [] && p.deadline.None?
            && |p.dispatched| == |o.dispatched| + 1
            && (forall k | 0 <= k < |p.dispatched| :: GoodDispatch(cfg, p.dispatched[k]))
            && (forall k | 0 <= k < |o.dispatched| && o.dispatched[k].cause.Boundary? ::
                  RealBoundary(p.dispatched, [], k))
  {
    var p := Flush(o, cause, now);
    forall k | 0 <= k < |o.dispatched| && o.dispatched[k].cause.Boundary? ensures RealBoundary(p.dispatched, [], k) {
      assert RealBoundary(o.dispatched, o.buffer, k);
    }
  }

  lemma PushItemKeeps(cfg: Tunables, o: Progress, item: Item, now: real, depth: nat)
    requires Sane(cfg) && cfg.maxBatch >= 2 && GoodProgress(cfg, o)
    requires o.buffer != [] ==> o.buffer[0].warmup == item.warmup
    ensures GoodProgress(cfg, PushItem(cfg, o, item, now, depth))
  {
    if cfg.adaptive {
      AdaptiveTimeoutIs(1, depth, cfg.maxBatch, cfg.baseTimeout, cfg.minTimeout, cfg.queueThreshold);
    }
    assert Homogeneous(o.buffer + [item]);
    var p := PushItem(cfg, o, item, now, depth);
    forall k | 0 <= k < |o.dispatched| && o.dispatched[k].cause.Boundary?
      ensures RealBoundary(p.dispatched, p.buffer, k)
    {
      assert RealBoundary(o.dispatched, o.buffer, k);
    }
  }

  lemma CrossBoundaryKeeps(cfg: Tunables, o: Progress, item: Item, now: real, depth: nat)
    requires Sane(cfg) && cfg.maxBatch >= 2 && GoodProgress(cfg, o)
    requires o.buffer != [] && o.buffer[0].warmup != item.warmup
    ensures GoodProgress(cfg, PushItem(cfg, Flush(o, Boundary, now), item, now, depth))
  {
    if cfg.adaptive {
      AdaptiveTimeoutIs(1, depth, cfg.maxBatch, cfg.baseTimeout, cfg.minTimeout, cfg.queueThreshold);
    }
    FlushKeeps(cfg, o, Boundary, now);
    var a := Flush(o, Boundary, now);
    var p := PushItem(cfg, a, item, now, depth);
    assert p.dispatched == a.dispatched && p.buffer == [item];
    forall k | 0 <= k < |p.dispatched| && p.dispatched[k].cause.Boundary?
      ensures RealBoundary(p.dispatched, p.buffer, k)
    {
      if k < |o.dispatched| {
        assert p.dispatched[k] == o.dispatched[k];
        assert RealBoundary(p.dispatched, [], k);
      }
    }
  }

  lemma TakeItemKeeps(cfg: Tunables, o: Progress, item: Item, now: real, depth: nat)
    requires Sane(cfg) && cfg.maxBatch >= 2 && GoodProgress(cfg, o)
    ensures GoodProgress(cfg, TakeItem(cfg, o, item, now, depth))
  {
    if o.buffer != [] && o.buffer[0].warmup != item.warmup {
      CrossBoundaryKeeps(cfg, o, item, now, depth);
    } else {
      PushItemKeeps(cfg, o, item, now, depth);
    }
  }

  lemma AloneKeeps(cfg: Tunables, o: Progress, item: Item, now: real)
    requires cfg.maxBatch <= 1 && GoodProgress(cfg, o)
    ensures GoodProgress(cfg, SendAlone(o, item, now)) && Kept(SendAlone(o, item, now)) == Kept(o) + [item]
  {
    FlattenAppend(o.dispatched, Dispatch([item], Alone, now, 0, now, now));
    assert forall k | 0 <= k < |o.dispatched| :: GoodDispatch(cfg, o.dispatched[k]) && !o.dispatched[k].cause.Boundary?;
  }

  lemma TakeItemKeepsRest(cfg: Tunables, o: Progress, item: Item, now: real, depth: nat)
    ensures TakeItem(cfg, o, item, now, depth).rejected == o.rejected
    ensures TakeItem(cfg, o, item, now, depth).dropped == o.dropped
  {
  }

  /** The receive branch for an item that survives. */
  function Admit(cfg: Tunables, o: Progress, item: Item, now: real, depth: nat): Progress {
    if cfg.maxBatch <= 1 then SendAlone(o, item, now) else TakeItem(cfg, o, item, now, depth)
  }

  lemma AdmitKeeps(cfg: Tunables, o: Progress, item: Item, now: real, depth: nat)
    requires Sane(cfg) && GoodProgress(cfg, o)
    ensures var n := Admit(cfg, o, item, now, depth);
            GoodProgress(cfg, n) && Kept(n) == Kept(o) + [item] && n.rejected == o.rejected && n.dropped == o.dropped
  {
    if cfg.maxBatch <= 1 {
      AloneKeeps(cfg, o, item, now);
    } else {
      TakeItemKeepsOrder(cfg, o, item, now, depth);
      TakeItemKeeps(cfg, o, item, now, depth);
      TakeItemKeepsRest(cfg, o, item, now, depth);
    }
  }

  lemma FireKeeps(cfg: Tunables, o: Progress, now: real)
    requires GoodProgress(cfg, o) && o.deadline.Some? && o.deadline.value <= now
    ensures var n := Fire(o, now);
            && GoodProgress(cfg, n) && Kept(n) == Kept(o) && n.buffer == []
            && n.rejected == o.rejected && n.dropped == o.dropped
  {
    FlushKeeps(cfg, o, Timer, now);
    FlushKeepsOrder(o, Timer, now);
  }

  /** A rejected or dropped item leaves batches, buffer and timer alone. */
  lemma RefuseKeeps(cfg: Tunables, o: Progress, rejected: seq<Item>, dropped: seq<Item>)
    requires GoodProgress(cfg, o)
    ensures var n := o.(rejected := rejected, dropped := dropped); GoodProgress(cfg, n) && Kept(n) == Kept(o)
  {
  }

  // ----- The task -----

  /** The receive branch. */
  method OnItem(cfg: Tunables, o: Progress, item: Item, waiterGone: bool, now: real, depth: nat) returns (n: Progress)
    requires Sane(cfg) && GoodProgress(cfg, o)
    ensures GoodProgress(cfg, n)
    ensures var late := cfg.queueTimeout > 0.0 && cfg.rejectLate && now > item.enqueuedAt + cfg.queueTimeout;
            && n.rejected == o.rejected + (if late then [item] else [])
            && n.dropped == o.dropped + (if !late && waiterGone then [item] else [])
            && Kept(n) == Kept(o) + (if !late && !waiterGone then [item] else [])
    ensures var fate := FateOf(cfg, Poll(Ready(item, waiterGone), now, depth));
            && Kept(n) == Kept(o) + (if fate == Survive then [item] else [])
            && n.rejected == o.rejected + (if fate == Reject then [item] else [])
            && n.dropped == o.dropped + (if fate == Discard then [item] else [])
  {
    if Late(cfg, item, now) {
      n := o.(rejected := o.rejected + [item], dropped := o.dropped);
      RefuseKeeps(cfg, o, n.rejected, n.dropped);
    } else if waiterGone {
      n := o.(rejected := o.rejected, dropped := o.dropped + [item]);
      RefuseKeeps(cfg, o, n.rejected, n.dropped);
    } else {
      AdmitKeeps(cfg, o, item, now, depth);
      n := Admit(cfg, o, item, now, depth);
    }
  }

  /** One poll of the `select!`. */
  method OnPoll(cfg: Tunables, o: Progress, p: Poll) returns (n: Progress, exit: bool)
    requires Sane(cfg) && GoodProgress(cfg, o)
    ensures GoodProgress(cfg, n)
    ensures Kept(n) == Kept(o) + if FateOf(cfg, p) == Survive then [p.recv.item] else []
    ensures n.rejected == o.rejected + if FateOf(cfg, p) == Reject then [p.recv.item] else []
    ensures n.dropped == o.dropped + if FateOf(cfg, p) == Discard then [p.recv.item] else []
    ensures !p.recv.Ready? && n.buffer != [] ==> p.now < n.deadline.value
    ensures exit <==> p.recv.Closed? && o.buffer == []
    ensures exit ==> n == o
  {
    n, exit := o, false;
    if p.recv.Ready? {
      n := OnItem(cfg, o, p.recv.item, p.recv.waiterGone, p.now, p.depth);
    } else if o.deadline.Some? && p.now >= o.deadline.value {
      FireKeeps(cfg, o, p.now);
      n := Fire(o, p.now);
    } else if p.recv.Closed? && o.deadline.None? {
      exit := true;
    }
  }

  /** Runs the collector over the polls, to their end or to its exit after `polled` of them. */
  method BatchCollector(cfg: Tunables, polls: seq<Poll>) returns (o: Progress, polled: nat, exited: bool)
    requires Sane(cfg)
    ensures polled <= |polls| && (polled < |polls| ==> exited)
    // Every dequeued item is rejected, dropped, dispatched once or in the buffer; survivors keep their order.
    ensures Flatten(o.dispatched) + o.buffer == ItemsOf(cfg, polls[..polled], Survive)
    ensures o.rejected == ItemsOf(cfg, polls[..polled], Reject) && o.dropped == ItemsOf(cfg, polls[..polled], Discard)
    // Batches are small enough, never mixed, and dispatched for a reason; the timer is armed exactly when items wait.
    ensures GoodProgress(cfg, o)
    // A due timer is never left unserved by a poll with nothing to receive.
    ensures polled > 0 && !polls[polled - 1].recv.Ready? && o.buffer != [] ==> polls[polled - 1].now < o.deadline.value
    // The loop ends only on a closed channel, and then nothing is left to drain.
    ensures exited ==> polled > 0 && polls[polled - 1].recv.Closed? && o.buffer == []
  {
    o, polled, exited := Progress([], [], [], [], None, 0.0, 0), 0, false;
    while polled < |polls| && !exited
      invariant polled <= |polls|
      invariant Kept(o) == ItemsOf(cfg, polls[..polled], Survive)
      invariant o.rejected == ItemsOf(cfg, polls[..polled], Reject)
      invariant o.dropped == ItemsOf(cfg, polls[..polled], Discard)
      invariant GoodProgress(cfg, o)
      invariant polled > 0 && !polls[polled - 1].recv.Ready? && o.buffer != [] ==>
                  polls[polled - 1].now < o.deadline.value
      invariant exited ==> polled > 0 && polls[polled - 1].recv.Closed? && o.buffer == []
      decreases |polls| - polled
    {
      ItemsOfAppend(cfg, polls, polled, Survive);
      ItemsOfAppend(cfg, polls, polled, Reject);
      ItemsOfAppend(cfg, polls, polled, Discard);
      o, exited := OnPoll(cfg, o, polls[polled]);
      polled := polled + 1;
    }
    // The source drains a remaining batch here: there never is one.
    assert exited ==> o.buffer == [];
  }
}
