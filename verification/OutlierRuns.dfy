/** What every run of calls on the shared outlier state keeps.

    A run is any sequence of atomic steps under a clock that never goes back. A kill
    escalation is four steps of the health checker (check, send, count the kill, clear the
    errors), so any other call may fall between them. A `Watch` observes one slot from
    outside: it only looks at which circuits open and close and at what the calls return. */
module OutlierRuns {
  import opened Common
  import opened Outlier

  datatype Step = Call(op: Op) | Check(slot: nat) | Send(slot: nat)

  datatype Event = Event(step: Step, now: nat)

  /** Where the health checker stands in escalating on a slot. */
  datatype Phase = Idle | Checked | Sent | Counted

  /** openings: times this circuit opened since it was last closed; forced: that episode began
      with a forced ejection; trips, acks: openings ever, and true results ever; burst: respawn
      signals since the last recorded success; errorsSince: errors recorded since the last signal;
      gaps: the errors recorded before each signal; clashes: signals sent while recycling. */
  datatype Watch = Watch(openings: seq<nat>, forced: bool, trips: nat, acks: nat,
                         burst: nat, errorsSince: nat, gaps: seq<nat>, clashes: nat, phase: Phase)

  const FreshWatch := Watch([], false, 0, 0, 0, 0, [], 0, Idle)

  datatype Run = Run(fleet: Fleet, watches: seq<Watch>)

  function Target(step: Step): nat { if step.Call? then step.op.i else step.slot }

  /** Kills are counted and errors cleared only by an escalation under way. */
  predicate Enabled(step: Step, phase: Phase) {
    match step
    case Check(_) => phase == Idle
    case Send(_) => phase == Checked
    case Call(RecordKill(_)) => phase == Sent
    case Call(ResetErrorCount(_)) => phase == Counted
    case Call(_) => true
  }

  function Observe(w: Watch, op: Op, s: Slot, t: Slot, result: bool, now: nat): Watch {
    var opens := !s.Open() && t.Open();
    w.(openings := if t.ejected.None? then [] else if opens then w.openings + [now] else w.openings,
       forced := if t.ejected.None? then false
                 else if s.ejected.None? then op.ForceEject? || op.ReleaseRecycle?
                 else w.forced,
       trips := w.trips + (if opens then 1 else 0),
       acks := w.acks + (if result && (op.RecordError? || op.ForceEject? || op.ReleaseRecycle?) then 1 else 0),
       burst := if op.RecordSuccess? then 0 else w.burst,
       errorsSince := w.errorsSince + (if op.RecordError? then 1 else 0),
       phase := if op.RecordKill? then Counted else if op.ResetErrorCount? then Idle else w.phase)
  }

  function ObserveSend(w: Watch, s: Slot): Watch {
    w.(burst := w.burst + 1, errorsSince := 0, gaps := w.gaps + [w.errorsSince],
       clashes := w.clashes + (if s.recycling then 1 else 0), phase := Sent)
  }

  /** One step of the system; a step that is not enabled does nothing. */
  ghost function Advance(cfg: Config, kill: nat, run: Run, e: Event): Run
    requires |run.watches| == |run.fleet.slots|
  {
    var i := Target(e.step);
    if i >= |run.watches| || !Enabled(e.step, run.watches[i].phase) then run
    else
      var s, w := run.fleet.slots[i], run.watches[i];
      match e.step
      case Check(_) => if WouldSignal(s, kill) then run.(watches := run.watches[i := w.(phase := Checked)]) else run
      case Send(_) => run.(watches := run.watches[i := ObserveSend(w, s)])
      case Call(op) =>
        var (f, r) := Apply(cfg, run.fleet, op, e.now);
        Run(f, run.watches[i := Observe(w, op, s, f.slots[i], r, e.now)])
  }

  ghost function Exec(cfg: Config, kill: nat, n: nat, events: seq<Event>): (run: Run)
    ensures |run.watches| == |run.fleet.slots| == n
  {
    if events == [] then Run(Fleet(seq(n, _ => FreshSlot), 0), seq(n, _ => FreshWatch))
    else Advance(cfg, kill, Exec(cfg, kill, n, events[..|events| - 1]), events[|events| - 1])
  }

  ghost predicate Monotone(events: seq<Event>) {
    forall j, k | 0 <= j <= k < |events| :: events[j].now <= events[k].now
  }

  function Clock(events: seq<Event>): nat { if events == [] then 0 else events[|events| - 1].now }

  // ----- Invariant of one slot -----

  ghost predicate Spaced(cfg: Config, openings: seq<nat>) {
    forall k | 1 <= k < |openings| :: openings[k - 1] + Backoff(cfg, k) <= openings[k]
  }

  ghost predicate CircuitInv(cfg: Config, s: Slot, w: Watch, now: nat) {
    && s.series == |w.openings|
    && (s.ejected.None? <==> s.series == 0)
    && w.trips == w.acks
    && Spaced(cfg, w.openings)
    && (s.ejected.Some? ==>
          && s.ejected.value.at == w.openings[|w.openings| - 1] <= now
          && (s.HalfOpen() ==> s.ejected.value.at + Backoff(cfg, s.series) <= now))
    && (s.ejected.None? ==> !w.forced)
  }

  ghost predicate KillInv(kill: nat, s: Slot, w: Watch) {
    && w.burst <= MAX_CONSECUTIVE_KILLS
    && w.burst <= s.kills + (if w.phase.Sent? then 1 else 0)
    && (w.phase.Idle? || w.phase.Checked? ==> s.errors <= w.errorsSince)
    && (w.phase.Checked? ==> w.errorsSince >= kill && s.kills < MAX_CONSECUTIVE_KILLS)
    && (forall g | g in w.gaps :: g >= kill)
  }

  lemma CallKeepsCircuit(cfg: Config, s: Slot, w: Watch, op: Op, room: bool, ticket: bool, then_: nat, now: nat)
    requires then_ <= now && CircuitInv(cfg, s, w, then_)
    ensures var (t, r) := SlotStep(cfg, s, op, room, ticket, now);
            CircuitInv(cfg, t, Observe(w, op, s, t, r, now), now)
  {
  }

  lemma CallKeepsKills(cfg: Config, kill: nat, s: Slot, w: Watch, op: Op, room: bool, ticket: bool, now: nat)
    requires KillInv(kill, s, w) && Enabled(Call(op), w.phase)
    ensures var (t, r) := SlotStep(cfg, s, op, room, ticket, now);
            KillInv(kill, t, Observe(w, op, s, t, r, now))
  {
  }

  lemma EscalationKeepsSlot(cfg: Config, kill: nat, s: Slot, w: Watch, now: nat)
    requires CircuitInv(cfg, s, w, now) && KillInv(kill, s, w)
    ensures w.phase.Idle? && WouldSignal(s, kill) ==>
              CircuitInv(cfg, s, w.(phase := Checked), now) && KillInv(kill, s, w.(phase := Checked))
    ensures w.phase.Checked? ==> CircuitInv(cfg, s, ObserveSend(w, s), now) && KillInv(kill, s, ObserveSend(w, s))
  {
  }

  lemma TimePasses(cfg: Config, s: Slot, w: Watch, then_: nat, now: nat)
    requires CircuitInv(cfg, s, w, then_) && then_ <= now
    ensures CircuitInv(cfg, s, w, now)
  {
  }

  // ----- Invariants of the fleet -----

  /** The slots, half-open ones included, ejected for their errors. */
  ghost function Unforced(run: Run): set<nat>
    requires |run.watches| == |run.fleet.slots|
  {
    set j | 0 <= j < |run.watches| && run.fleet.slots[j].ejected.Some? && !run.watches[j].forced
  }

  ghost predicate Inv(cfg: Config, kill: nat, run: Run, now: nat) {
    var n := |run.fleet.slots|;
    && |run.watches| == n
    && (forall i | 0 <= i < n :: CircuitInv(cfg, run.fleet.slots[i], run.watches[i], now)
                                 && KillInv(kill, run.fleet.slots[i], run.watches[i]))
    && TicketsMatch(cfg, run.fleet)
    && |Unforced(run)| <= PercentCap(n, cfg.maxPercent)
  }

  lemma AdvanceKeepsSlots(cfg: Config, kill: nat, run: Run, e: Event, then_: nat)
    requires Inv(cfg, kill, run, then_) && then_ <= e.now
    ensures var next := Advance(cfg, kill, run, e);
            forall i | 0 <= i < |run.watches| :: CircuitInv(cfg, next.fleet.slots[i], next.watches[i], e.now)
                                                 && KillInv(kill, next.fleet.slots[i], next.watches[i])
  {
    forall j | 0 <= j < |run.watches| ensures CircuitInv(cfg, run.fleet.slots[j], run.watches[j], e.now) {
      TimePasses(cfg, run.fleet.slots[j], run.watches[j], then_, e.now);
    }
    var i := Target(e.step);
    if i >= |run.watches| || !Enabled(e.step, run.watches[i].phase) {
      return;
    }
    if !e.step.Call? {
      EscalationKeepsSlot(cfg, kill, run.fleet.slots[i], run.watches[i], e.now);
    } else {
      var room, ticket := Room(cfg, run.fleet.slots, i), TicketFree(cfg, run.fleet);
      CallKeepsCircuit(cfg, run.fleet.slots[i], run.watches[i], e.step.op, room, ticket, then_, e.now);
      CallKeepsKills(cfg, kill, run.fleet.slots[i], run.watches[i], e.step.op, room, ticket, e.now);
      ApplyFrame(cfg, run.fleet, e.step.op, e.now);
    }
  }

  lemma AdvanceKeepsTickets(cfg: Config, kill: nat, run: Run, e: Event, then_: nat)
    requires Inv(cfg, kill, run, then_)
    ensures var f := Advance(cfg, kill, run, e).fleet;
            TicketsMatch(cfg, f)
  {
    if e.step.Call? {
      ApplyKeepsTickets(cfg, run.fleet, e.step.op, e.now);
    }
  }

  /** A slot newly ejected for its errors found room among the others. */
  lemma NewlyUnforced(cfg: Config, kill: nat, run: Run, e: Event, then_: nat)
    requires Inv(cfg, kill, run, then_)
    requires var i := Target(e.step); i in Unforced(Advance(cfg, kill, run, e)) && i !in Unforced(run)
    ensures Room(cfg, run.fleet.slots, Target(e.step))
  {
  }

  lemma AdvanceKeepsCap(cfg: Config, kill: nat, run: Run, e: Event, then_: nat)
    requires Inv(cfg, kill, run, then_)
    ensures var next := Advance(cfg, kill, run, e);
            |Unforced(next)| <= PercentCap(|next.watches|, cfg.maxPercent)
  {
    var next := Advance(cfg, kill, run, e);
    var i := Target(e.step);
    assert Unforced(next) - {i} <= Unforced(run);
    if i in Unforced(next) && i !in Unforced(run) {
      NewlyUnforced(cfg, kill, run, e, then_);
      var others := EjectedOthers(run.fleet.slots, i, |run.watches|);
      SubsetSize(Unforced(next) - {i}, others);
      assert Unforced(next) == (Unforced(next) - {i}) + {i};
    } else {
      SubsetSize(Unforced(next), Unforced(run));
    }
  }

  lemma {:induction false} ExecKeepsInv(cfg: Config, kill: nat, n: nat, events: seq<Event>)
    requires Monotone(events)
    ensures Inv(cfg, kill, Exec(cfg, kill, n, events), Clock(events))
  {
    if events == [] {
      var run := Exec(cfg, kill, n, events);
      assert Recycling(run.fleet.slots) == {} && Unforced(run) == {};
    } else {
      var before, e := events[..|events| - 1], events[|events| - 1];
      ExecKeepsInv(cfg, kill, n, before);
      var run := Exec(cfg, kill, n, before);
      AdvanceKeepsSlots(cfg, kill, run, e, Clock(before));
      AdvanceKeepsTickets(cfg, kill, run, e, Clock(before));
      AdvanceKeepsCap(cfg, kill, run, e, Clock(before));
    }
  }

  // ----- Theorems over every run -----

  /** The total wait an episode has served before its opening number `k + 1`. */
  function WaitSum(cfg: Config, k: nat): nat { if k == 0 then 0 else WaitSum(cfg, k - 1) + DoublingWait(cfg, k) }

  lemma {:induction false} SpacedSums(cfg: Config, openings: seq<nat>, k: nat)
    requires Spaced(cfg, openings) && k < |openings|
    ensures openings[0] + WaitSum(cfg, k) <= openings[k]
  {
    if k > 0 {
      SpacedSums(cfg, openings, k - 1);
      BackoffDoubles(cfg, k);
    }
  }

  lemma CircuitBreaker(cfg: Config, kill: nat, n: nat, events: seq<Event>, i: nat)
    requires Monotone(events) && i < n
    ensures var run := Exec(cfg, kill, n, events);
            var s, w := run.fleet.slots[i], run.watches[i];
            && (s.ejected.None? <==> s.series == 0)
            && s.series == |w.openings|
            && (forall k | 0 <= k < |w.openings| :: w.openings[0] + WaitSum(cfg, k) <= w.openings[k])
  {
    ExecKeepsInv(cfg, kill, n, events);
    var w := Exec(cfg, kill, n, events).watches[i];
    forall k | 0 <= k < |w.openings| ensures w.openings[0] + WaitSum(cfg, k) <= w.openings[k] {
      SpacedSums(cfg, w.openings, k);
    }
  }

  /** Error ejections respect the fleet's cap, and every opening was reported by exactly one true result. */
  lemma EjectionCap(cfg: Config, kill: nat, n: nat, events: seq<Event>)
    requires Monotone(events)
    ensures var run := Exec(cfg, kill, n, events);
            && |Unforced(run)| <= PercentCap(n, cfg.maxPercent)
            && (forall i | 0 <= i < n :: run.watches[i].trips == run.watches[i].acks)
  {
    ExecKeepsInv(cfg, kill, n, events);
  }

  /** `record_error` returns true exactly when it opens a circuit that was not open. */
  lemma ErrorReportsOpening(cfg: Config, f: Fleet, i: nat, now: nat)
    requires i < |f.slots|
    ensures var (g, r) := Apply(cfg, f, RecordError(i), now);
            r <==> !f.slots[i].Open() && g.slots[i].Open()
  {
    var s := f.slots[i];
    if s.Open() {
      assert !Apply(cfg, f, RecordError(i), now).1;
    }
  }

  /** Tickets count the recycling slots, stay under the cap, and leave a slot of a larger fleet serving. */
  lemma RecycleTickets(cfg: Config, kill: nat, n: nat, events: seq<Event>)
    requires Monotone(events)
    ensures var f := Exec(cfg, kill, n, events).fleet;
            && f.claims == |Recycling(f.slots)| <= PercentCap(n, cfg.recycleMaxPercent)
            && (n >= 2 && cfg.recycleMaxPercent < 100 ==> exists i | 0 <= i < n :: !f.slots[i].recycling)
  {
    ExecKeepsInv(cfg, kill, n, events);
    var f := Exec(cfg, kill, n, events).fleet;
    if n >= 2 && cfg.recycleMaxPercent < 100 {
      PercentCapLeavesOne(n, cfg.recycleMaxPercent);
      var i := SmallerSetMisses(Recycling(f.slots), n);
      assert !f.slots[i].recycling;
    }
  }

  /** Respawn signals: at most three between recorded successes and each after enough errors, whatever other calls
      fall between the steps of an escalation. */
  lemma KillEscalation(cfg: Config, kill: nat, n: nat, events: seq<Event>, i: nat)
    requires Monotone(events) && i < n
    ensures var w := Exec(cfg, kill, n, events).watches[i];
            && w.burst <= 3
            && (forall g | g in w.gaps :: g >= kill)
  {
    ExecKeepsInv(cfg, kill, n, events);
  }
}
