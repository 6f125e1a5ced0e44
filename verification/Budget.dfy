/** Rolling-recycle budgets: how served requests pace the recycling of worker slots. */
module Budget {
  import opened Common
  import opened Outlier

  /** One slot's step: charge `size`, and on crossing the threshold try to claim the recycle; after a refusal the slot
      is probed to see whether the refusal is worth a log line, unless it is recycling. Returns the new count, the
      fleet, and whether the claim was won. */
  ghost function Charge(cfg: Config, f: Fleet, count: nat, threshold: nat, hasChannel: bool, i: nat, size: nat,
                        now: nat)
    : (nat, Fleet, bool)
  {
    if threshold == 0 then (count, f, false)
    else if count + size < threshold || !hasChannel then (count + size, f, false)
    else
      var (g, won) := Apply(cfg, f, ClaimRecycle(i), now);
      if won then (0, g, true) else (count + size, Probed(cfg, g, RefusalProbes(f, i), now), false)
  }

  ghost function RefusalProbes(f: Fleet, i: nat): set<nat> {
    if i < |f.slots| && f.slots[i].recycling then {} else {i}
  }

  /** The same on all slots: an unknown slot is not charged. */
  ghost function ChargeSlot(cfg: Config, thresholds: seq<nat>, f: Fleet, counts: seq<nat>, hasChannel: bool, i: nat,
                            size: nat, now: nat)
    : (seq<nat>, Fleet, bool)
    requires |thresholds| == |counts|
  {
    if i >= |counts| then (counts, f, false)
    else
      var (c, g, won) := Charge(cfg, f, counts[i], thresholds[i], hasChannel, i, size, now);
      (counts[i := c], g, won)
  }

  lemma RefusedClaim(cfg: Config, f: Fleet, i: nat, now: nat)
    requires !Apply(cfg, f, ClaimRecycle(i), now).1
    ensures Apply(cfg, f, ClaimRecycle(i), now).0 == f
  {
    if i < |f.slots| {
      assert f.slots[i := f.slots[i]] == f.slots;
    }
  }

  class WorkerBudgets {
    const thresholds: seq<nat>
    const counts: array<nat>

    constructor (thresholds: seq<nat>)
      ensures this.thresholds == thresholds && fresh(counts)
      ensures counts[..] == seq(|thresholds|, _ => 0)
    {
      this.thresholds := thresholds;
      counts := new nat[|thresholds|](_ => 0);
    }

    method CheckWorkerBudget(outlier: OutlierState, hasChannel: bool, i: nat, size: nat, now: nat) returns (won: bool)
      requires |thresholds| == counts.Length
      modifies counts, outlier, outlier.slots
      ensures (counts[..], outlier.View(), won) ==
                ChargeSlot(outlier.cfg, thresholds, old(outlier.View()), old(counts[..]), hasChannel, i, size, now)
    {
      won := false;
      if i >= counts.Length || thresholds[i] == 0 {
        assert i < counts.Length ==> counts[..] == counts[..][i := counts[i]];
        return;
      }
      counts[i] := counts[i] + size;
      assert counts[..] == old(counts[..])[i := counts[i]];
      if counts[i] < thresholds[i] || !hasChannel {
        return;
      }
      ghost var f := outlier.View();
      won := outlier.ClaimRecycle(i, now);
      if !won {
        RefusedClaim(outlier.cfg, f, i, now);
        ProbedNone(outlier.cfg, f, now);
        ProbedOne(outlier.cfg, f, i, now);
        if !outlier.IsRecycling(i) {
          var _ := outlier.IsEjected(i, now);
        }
        return;
      }
      counts[i] := 0;
      assert counts[..] == old(counts[..])[i := 0];
    }
  }

  /** A charge claims and wins exactly when it reaches a threshold that is set, a channel exists, the slot is alive,
      closed and idle, and fewer slots than the cap are recycling. */
  lemma ClaimedExactlyWhen(cfg: Config, f: Fleet, count: nat, threshold: nat, hasChannel: bool, i: nat, size: nat,
                           now: nat)
    requires i < |f.slots| && TicketsMatch(cfg, f)
    ensures var (c, g, won) := Charge(cfg, f, count, threshold, hasChannel, i, size, now);
            && (won <==> && 1 <= threshold <= count + size && hasChannel && Claimable(cfg, f, i))
            && c == (if won then 0 else if threshold == 0 then count else count + size)
            && TicketsMatch(cfg, g)
  {
    ApplyKeepsTickets(cfg, f, ClaimRecycle(i), now);
    var g := Apply(cfg, f, ClaimRecycle(i), now).0;
    assert Recycling(Probed(cfg, g, RefusalProbes(f, i), now).slots) == Recycling(g.slots);
  }

  ghost predicate Claimable(cfg: Config, f: Fleet, i: nat)
    requires i < |f.slots|
  {
    && !f.slots[i].dead && f.slots[i].ejected.None? && !f.slots[i].recycling
    && |Recycling(f.slots)| < PercentCap(|f.slots|, cfg.recycleMaxPercent)
  }

  // ----- Runs of whole calls -----

  /** A served batch charged to a slot, or any other call on the outlier state but a claim. */
  datatype Event = Served(i: nat, size: nat, now: nat) | Other(op: Op, now: nat)

  /** What the outside saw of one slot: requests credited, what each won claim used up, and how often
      the slot stopped recycling. */
  datatype Ledger = Ledger(credited: nat, consumed: seq<nat>, ended: nat)

  datatype Run = Run(fleet: Fleet, counts: seq<nat>, ledgers: seq<Ledger>)

  ghost predicate Shape(thresholds: seq<nat>, run: Run) {
    |run.fleet.slots| == |run.counts| == |run.ledgers| == |thresholds|
  }

  ghost function Advance(cfg: Config, thresholds: seq<nat>, hasChannel: bool, run: Run, e: Event): (next: Run)
    requires Shape(thresholds, run)
    ensures Shape(thresholds, next)
  {
    match e
    case Served(i, size, now) =>
      if i >= |thresholds| then run
      else
        var (c, f, won) := Charge(cfg, run.fleet, run.counts[i], thresholds[i], hasChannel, i, size, now);
        var l := run.ledgers[i];
        var credited := if thresholds[i] == 0 then l.credited else l.credited + size;
        var consumed := if won then l.consumed + [run.counts[i] + size] else l.consumed;
        Run(f, run.counts[i := c],
            run.ledgers[i := l.(credited := credited, consumed := consumed)])
    case Other(op, now) =>
      if op.ClaimRecycle? || op.i >= |thresholds| then run
      else
        var f := Apply(cfg, run.fleet, op, now).0;
        var l := run.ledgers[op.i];
        var ended := if run.fleet.slots[op.i].recycling && !f.slots[op.i].recycling then 1 else 0;
        run.(fleet := f, ledgers := run.ledgers[op.i := l.(ended := l.ended + ended)])
  }

  ghost function Exec(cfg: Config, thresholds: seq<nat>, hasChannel: bool, events: seq<Event>): (run: Run)
    ensures Shape(thresholds, run)
  {
    var n := |thresholds|;
    if events == [] then Run(Fleet(seq(n, _ => FreshSlot), 0), seq(n, _ => 0), seq(n, _ => Ledger(0, [], 0)))
    else
      var before := Exec(cfg, thresholds, hasChannel, events[..|events| - 1]);
      Advance(cfg, thresholds, hasChannel, before, events[|events| - 1])
  }

  ghost predicate Balanced(threshold: nat, slot: Slot, count: nat, l: Ledger) {
    && l.credited == Sum(l.consumed) + count
    && (forall k | 0 <= k < |l.consumed| :: l.consumed[k] >= threshold > 0)
    && |l.consumed| == l.ended + if slot.recycling then 1 else 0
  }

  /** What a charge does to the count and to the slot's flag. */
  lemma ChargeEffect(cfg: Config, f: Fleet, count: nat, threshold: nat, hasChannel: bool, i: nat, size: nat, now: nat)
    requires i < |f.slots|
    ensures var (c, g, won) := Charge(cfg, f, count, threshold, hasChannel, i, size, now);
            && |g.slots| == |f.slots|
            && (g.slots[i].recycling <==> f.slots[i].recycling || won)
            && (won ==> !f.slots[i].recycling && count + size >= threshold > 0 && c == 0)
            && (!won ==> c == if threshold == 0 then count else count + size)
  {
    if !Apply(cfg, f, ClaimRecycle(i), now).1 {
      RefusedClaim(cfg, f, i, now);
    }
  }

  /** Crediting `size` keeps the balance when nothing is claimed, and when a claim uses up everything counted. */
  lemma CreditKeepsBalance(threshold: nat, s: Slot, t: Slot, count: nat, l: Ledger, size: nat)
    requires Balanced(threshold, s, count, l)
    ensures t.recycling == s.recycling ==> Balanced(threshold, t, count, l)
    ensures t.recycling == s.recycling ==> Balanced(threshold, t, count + size, l.(credited := l.credited + size))
    ensures !s.recycling && t.recycling && count + size >= threshold > 0 ==>
              Balanced(threshold, t, 0, l.(credited := l.credited + size, consumed := l.consumed + [count + size]))
  {
    SumAppend(l.consumed, count + size);
  }

  lemma ChargeKeepsBalance(cfg: Config, threshold: nat, hasChannel: bool, f: Fleet, count: nat, l: Ledger, i: nat,
                           size: nat, now: nat)
    requires i < |f.slots| && Balanced(threshold, f.slots[i], count, l)
    ensures var (c, g, won) := Charge(cfg, f, count, threshold, hasChannel, i, size, now);
            var credited := if threshold == 0 then l.credited else l.credited + size;
            var consumed := if won then l.consumed + [count + size] else l.consumed;
            |g.slots| == |f.slots| && Balanced(threshold, g.slots[i], c, l.(credited := credited, consumed := consumed))
  {
    ChargeEffect(cfg, f, count, threshold, hasChannel, i, size, now);
    var g := Charge(cfg, f, count, threshold, hasChannel, i, size, now).1;
    CreditKeepsBalance(threshold, f.slots[i], g.slots[i], count, l, size);
  }

  ghost predicate AllBalanced(thresholds: seq<nat>, run: Run)
    requires Shape(thresholds, run)
  {
    forall j | 0 <= j < |thresholds| :: Balanced(thresholds[j], run.fleet.slots[j], run.counts[j], run.ledgers[j])
  }

  lemma ChargeFrame(cfg: Config, f: Fleet, count: nat, threshold: nat, hasChannel: bool, i: nat, size: nat, now: nat)
    ensures var g := Charge(cfg, f, count, threshold, hasChannel, i, size, now).1;
            |g.slots| == |f.slots| && forall j | 0 <= j < |f.slots| && j != i :: g.slots[j] == f.slots[j]
  {
    ApplyFrame(cfg, f, ClaimRecycle(i), now);
  }

  lemma ServedKeepsBalance(cfg: Config, thresholds: seq<nat>, hasChannel: bool, run: Run, i: nat, size: nat, now: nat)
    requires Shape(thresholds, run) && AllBalanced(thresholds, run)
    ensures AllBalanced(thresholds, Advance(cfg, thresholds, hasChannel, run, Served(i, size, now)))
  {
    if i < |thresholds| {
      ChargeKeepsBalance(cfg, thresholds[i], hasChannel, run.fleet, run.counts[i], run.ledgers[i], i, size, now);
      ChargeFrame(cfg, run.fleet, run.counts[i], thresholds[i], hasChannel, i, size, now);
    }
  }

  lemma OtherKeepsBalance(cfg: Config, thresholds: seq<nat>, hasChannel: bool, run: Run, op: Op, now: nat)
    requires Shape(thresholds, run) && AllBalanced(thresholds, run)
    ensures AllBalanced(thresholds, Advance(cfg, thresholds, hasChannel, run, Other(op, now)))
  {
    ApplyFrame(cfg, run.fleet, op, now);
  }

  lemma {:induction false} ExecBalanced(cfg: Config, thresholds: seq<nat>, hasChannel: bool, events: seq<Event>)
    ensures AllBalanced(thresholds, Exec(cfg, thresholds, hasChannel, events))
  {
    if events != [] {
      ExecBalanced(cfg, thresholds, hasChannel, events[..|events| - 1]);
      var run := Exec(cfg, thresholds, hasChannel, events[..|events| - 1]);
      match events[|events| - 1] {
        case Served(i, size, now) => ServedKeepsBalance(cfg, thresholds, hasChannel, run, i, size, now);
        case Other(op, now) => OtherKeepsBalance(cfg, thresholds, hasChannel, run, op, now);
      }
    }
  }

  lemma {:induction false} SumAtLeast(s: seq<nat>, t: nat)
    requires forall k | 0 <= k < |s| :: s[k] >= t
    ensures Sum(s) >= |s| * t
  {
    if s != [] {
      SumAtLeast(s[..|s| - 1], t);
      assert |s| * t == (|s| - 1) * t + t;
    }
  }

  /** Credited requests are those used up by won claims plus the count; every won claim used up at least the
      threshold, so recycles never outnumber credited / threshold; and a slot is recycled again only after
      its previous recycle ended. */
  lemma BudgetPacing(cfg: Config, thresholds: seq<nat>, hasChannel: bool, events: seq<Event>, j: nat)
    requires j < |thresholds|
    ensures var run := Exec(cfg, thresholds, hasChannel, events);
            var l := run.ledgers[j];
            && l.credited == Sum(l.consumed) + run.counts[j]
            && (forall k | 0 <= k < |l.consumed| :: l.consumed[k] >= thresholds[j])
            && |l.consumed| * thresholds[j] <= l.credited
            && l.ended <= |l.consumed| <= l.ended + 1
  {
    ExecBalanced(cfg, thresholds, hasChannel, events);
    SumAtLeast(Exec(cfg, thresholds, hasChannel, events).ledgers[j].consumed, thresholds[j]);
  }

  lemma {:induction false} ExecTickets(cfg: Config, thresholds: seq<nat>, hasChannel: bool, events: seq<Event>)
    ensures TicketsMatch(cfg, Exec(cfg, thresholds, hasChannel, events).fleet)
  {
    if events == [] {
      assert Recycling(Exec(cfg, thresholds, hasChannel, events).fleet.slots) == {};
    } else {
      ExecTickets(cfg, thresholds, hasChannel, events[..|events| - 1]);
      var run := Exec(cfg, thresholds, hasChannel, events[..|events| - 1]);
      match events[|events| - 1] {
        case Served(i, size, now) =>
          if i < |thresholds| {
            ClaimedExactlyWhen(cfg, run.fleet, run.counts[i], thresholds[i], hasChannel, i, size, now);
          }
        case Other(op, now) => ApplyKeepsTickets(cfg, run.fleet, op, now);
      }
    }
  }

  /** In every run a served batch recycles its slot exactly when it takes the count to a threshold that is set, with a
      channel and a slot that can be claimed; so it leaves the count below the threshold unless the claim was
      refused. */
  lemma CrossingClaims(cfg: Config, thresholds: seq<nat>, hasChannel: bool, events: seq<Event>, i: nat, size: nat,
                       now: nat)
    requires i < |thresholds|
    ensures var run := Exec(cfg, thresholds, hasChannel, events);
            var next := Exec(cfg, thresholds, hasChannel, events + [Served(i, size, now)]);
            var reached := run.counts[i] + size;
            var recycled := 1 <= thresholds[i] <= reached && hasChannel && Claimable(cfg, run.fleet, i);
            && |next.ledgers[i].consumed| == |run.ledgers[i].consumed| + (if recycled then 1 else 0)
            && next.counts[i] == (if recycled then 0 else if thresholds[i] == 0 then run.counts[i] else reached)
            && (1 <= thresholds[i] <= next.counts[i] ==> !hasChannel || !Claimable(cfg, run.fleet, i))
  {
    var all := events + [Served(i, size, now)];
    assert all[..|all| - 1] == events;
    ExecTickets(cfg, thresholds, hasChannel, events);
    var run := Exec(cfg, thresholds, hasChannel, events);
    ClaimedExactlyWhen(cfg, run.fleet, run.counts[i], thresholds[i], hasChannel, i, size, now);
  }

  /** A refused claim keeps the crossed budget, and the next completion decides on a claim again; no slot but the one
      charged changes, and that one at most turns half-open with its backoff up. */
  lemma RefusalRetries(cfg: Config, f: Fleet, count: nat, threshold: nat, i: nat, size: nat, now: nat,
                       g: Fleet, size2: nat, now2: nat)
    requires threshold > 0 && count + size >= threshold
    requires !Apply(cfg, f, ClaimRecycle(i), now).1
    ensures var (c, f2, won) := Charge(cfg, f, count, threshold, true, i, size, now);
            && c == count + size && !won && f2.claims == f.claims && |f2.slots| == |f.slots|
            && (forall j | 0 <= j < |f.slots| && j != i :: f2.slots[j] == f.slots[j])
            && (i < |f.slots| ==> AtMostHalfOpened(cfg, f.slots[i], f2.slots[i], now))
            && (i < |f.slots| && f.slots[i].recycling ==> f2 == f)
            && (i < |f.slots| && !f.slots[i].recycling ==> f2.slots[i] == ProbedSlot(cfg, f.slots[i], now))
            && (Charge(cfg, g, c, threshold, true, i, size2, now2).2 <==> Apply(cfg, g, ClaimRecycle(i), now2).1)
  {
    RefusedClaim(cfg, f, i, now);
    ProbedNone(cfg, f, now);
    if i < |f.slots| {
      ProbeOnlyHalfOpens(cfg, f.slots[i], now);
    }
  }
}

/** The budget counter of one slot at the granularity of single atomic operations: a completion adds, then
    (having seen the threshold crossed) claims, then stores zero. */
module BudgetRaces {
  import opened Common

  /** A completion that saw the crossing; `epoch`: how many stores had happened when it added. */
  datatype Completion = Crossed(epoch: nat) | Holder(epoch: nat) | Finished

  datatype State = State(count: nat, credited: nat, recycling: bool, completions: seq<Completion>, consumed: seq<nat>)

  /** `Refuse`: the claim finds the slot ejected or dead, or no ticket free. */
  datatype Step = Add(size: nat) | Claim(c: nat) | Refuse(c: nat) | Store(c: nat) | Clear

  const Initial := State(0, 0, false, [], [])

  function Next(threshold: nat, s: State, step: Step): State {
    match step
    case Add(size) =>
      var t := s.(count := s.count + size, credited := s.credited + size);
      if t.count >= threshold then t.(completions := s.completions + [Crossed(|s.consumed|)]) else t
    case Claim(c) =>
      if c < |s.completions| && s.completions[c].Crossed? then
        if s.recycling then s.(completions := s.completions[c := Finished])
        else s.(recycling := true, completions := s.completions[c := Holder(s.completions[c].epoch)])
      else s
    case Refuse(c) =>
      if c < |s.completions| && s.completions[c].Crossed? then s.(completions := s.completions[c := Finished]) else s
    case Store(c) =>
      if c < |s.completions| && s.completions[c].Holder?
      then s.(count := 0, consumed := s.consumed + [s.count], completions := s.completions[c := Finished]) else s
    case Clear => s.(recycling := false)
  }

  ghost function Exec(threshold: nat, steps: seq<Step>): State {
    if steps == [] then Initial else Next(threshold, Exec(threshold, steps[..|steps| - 1]), steps[|steps| - 1])
  }

  ghost predicate Inv(threshold: nat, s: State) {
    && s.credited == Sum(s.consumed) + s.count
    && forall c | 0 <= c < |s.completions| && !s.completions[c].Finished? ::
         && s.completions[c].epoch <= |s.consumed|
         && (s.completions[c].epoch == |s.consumed| ==> s.count >= threshold)
  }

  lemma {:induction false} ExecKeepsInv(threshold: nat, steps: seq<Step>)
    ensures Inv(threshold, Exec(threshold, steps))
  {
    if steps != [] {
      ExecKeepsInv(threshold, steps[..|steps| - 1]);
      var s, t := Exec(threshold, steps[..|steps| - 1]), Exec(threshold, steps);
      if t.consumed != s.consumed {
        assert t.consumed[..|s.consumed|] == s.consumed;
      }
    }
  }

  /** In every interleaving nothing credited is lost, and a won claim whose completion added after the slot's
      last store uses up at least the threshold. */
  lemma FreshClaimsUseThreshold(threshold: nat, steps: seq<Step>, c: nat)
    requires var s := Exec(threshold, steps); c < |s.completions| && s.completions[c].Holder?
    ensures var s := Exec(threshold, steps);
            var t := Next(threshold, s, Store(c));
            && s.credited == Sum(s.consumed) + s.count
            && |t.consumed| == |s.consumed| + 1
            && (s.completions[c].epoch == |s.consumed| ==> t.consumed[|s.consumed|] >= threshold)
  {
    ExecKeepsInv(threshold, steps);
  }

  /** Step `k` is a store that takes effect. */
  ghost predicate Stores(threshold: nat, steps: seq<Step>, k: nat) {
    && k < |steps| && steps[k].Store?
    && var s := Exec(threshold, steps[..k]);
       steps[k].c < |s.completions| && s.completions[steps[k].c].Holder?
  }

  /** The last store so far was step `from - 1`, or there was none and `from` is 0. */
  ghost predicate SinceStore(threshold: nat, steps: seq<Step>, from: nat) {
    && from <= |steps|
    && (from == 0 || Stores(threshold, steps, from - 1))
    && forall k: nat | from <= k < |steps| :: !Stores(threshold, steps, k)
  }

  function AddedBy(steps: seq<Step>): nat {
    if steps == [] then 0
    else AddedBy(steps[..|steps| - 1]) + if steps[|steps| - 1].Add? then steps[|steps| - 1].size else 0
  }

  lemma {:induction false} CountIsAdded(threshold: nat, steps: seq<Step>, from: nat)
    requires SinceStore(threshold, steps, from)
    ensures Exec(threshold, steps).count == AddedBy(steps[from..])
  {
    if |steps| > from {
      var before := steps[..|steps| - 1];
      forall k: nat | k < |before| ensures Stores(threshold, before, k) <==> Stores(threshold, steps, k) {
        assert before[..k] == steps[..k];
      }
      CountIsAdded(threshold, before, from);
      assert steps[from..][..|steps| - 1 - from] == before[from..];
      assert !Stores(threshold, steps, |steps| - 1);
    }
  }

  /** What a won claim uses up is what was added since the last store, so it uses up at least the threshold exactly
      when that much was added since. */
  lemma ClaimUsesAdded(threshold: nat, steps: seq<Step>, from: nat, c: nat)
    requires SinceStore(threshold, steps, from)
    requires var s := Exec(threshold, steps); c < |s.completions| && s.completions[c].Holder?
    ensures var t := Exec(threshold, steps + [Store(c)]);
            && |t.consumed| == |Exec(threshold, steps).consumed| + 1
            && (t.consumed[|t.consumed| - 1] >= threshold <==> AddedBy(steps[from..]) >= threshold)
  {
    CountIsAdded(threshold, steps, from);
    assert (steps + [Store(c)])[..|steps|] == steps;
  }

  /** In every interleaving a completion sees the crossing, and will claim, exactly when what was added since the last
      store together with its own requests reaches the threshold. */
  lemma CrossesExactly(threshold: nat, steps: seq<Step>, from: nat, size: nat)
    requires SinceStore(threshold, steps, from)
    ensures var s, t := Exec(threshold, steps), Exec(threshold, steps + [Add(size)]);
            t.completions == if AddedBy(steps[from..]) + size >= threshold then s.completions + [Crossed(|s.consumed|)]
                             else s.completions
  {
    CountIsAdded(threshold, steps, from);
    assert (steps + [Add(size)])[..|steps|] == steps;
  }

  /** A completion that saw the crossing wins its claim exactly when the slot is not recycling, and the winner alone
      stores. */
  lemma ClaimWinsExactly(threshold: nat, s: State, c: nat)
    requires c < |s.completions| && s.completions[c].Crossed?
    ensures var t := Next(threshold, s, Claim(c));
            && t.recycling && (t.completions[c].Holder? <==> !s.recycling)
            && Next(threshold, t, Store(c)).count == (if s.recycling then s.count else 0)
            && Next(threshold, Next(threshold, s, Refuse(c)), Store(c)).count == s.count
  {
  }

  function StaleRun(threshold: nat): seq<Step> {
    [Add(threshold), Add(1), Claim(0), Store(0), Clear, Claim(1), Store(1)]
  }

  /** The condition matters: a completion that crossed before another's store claims again after the slot
      was replaced, and recycles the fresh worker having used up nothing. */
  lemma StaleClaimUsesNothing(threshold: nat)
    requires threshold > 0
    ensures Exec(threshold, StaleRun(threshold)).consumed == [threshold + 1, 0]
  {
    var r := StaleRun(threshold);
    assert r[..6][..5] == r[..5] && r[..5][..4] == r[..4] && r[..4][..3] == r[..3];
    assert r[..3][..2] == r[..2] && r[..2][..1] == r[..1];
    assert Exec(threshold, []) == Initial;
    assert Exec(threshold, r[..1]).completions == [Crossed(0)];
    assert Exec(threshold, r[..2]).completions == [Crossed(0), Crossed(0)];
    assert Exec(threshold, r[..3]).completions == [Holder(0), Crossed(0)];
    assert Exec(threshold, r[..4]).completions == [Finished, Crossed(0)];
    assert Exec(threshold, r[..5]).completions == [Finished, Crossed(0)];
    assert Exec(threshold, r[..6]).completions == [Finished, Holder(0)];
  }
}
