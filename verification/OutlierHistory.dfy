/** The answers of the outlier state as a matter of record.

    Everything here is said of the log alone: which calls were made on a slot, in which order,
    and what they returned. No definition looks inside a slot; the theorems say that the log
    determines every answer. */
module OutlierHistory {
  import opened Common
  import opened Outlier
  import opened OutlierRuns

  datatype Log = Log(cfg: Config, kill: nat, n: nat, events: seq<Event>)

  /** The system before event `m`. */
  ghost function Before(l: Log, m: nat): (run: Run)
    requires m <= |l.events|
    ensures |run.watches| == |run.fleet.slots| == l.n
  {
    Exec(l.cfg, l.kill, l.n, l.events[..m])
  }

  // ----- Observations -----

  /** Event `m` is the call `op`; the two calls of an escalation happen only in their turn. */
  ghost predicate Does(l: Log, m: nat, op: Op) {
    && m < |l.events| && op.i < l.n
    && l.events[m].step == Call(op)
    && Enabled(Call(op), Before(l, m).watches[op.i].phase)
  }

  /** What event `m` returned. */
  ghost predicate Answered(l: Log, m: nat) {
    m < |l.events| && l.events[m].step.Call? && Apply(l.cfg, Before(l, m).fleet, l.events[m].step.op, l.events[m].now).1
  }

  /** A circuit opens, as the call (or the forced ejection inside a release) reports. */
  ghost predicate Opens(l: Log, i: nat, m: nat) {
    (Does(l, m, RecordError(i)) || Does(l, m, ForceEject(i)) || Does(l, m, ReleaseRecycle(i))) && Answered(l, m)
  }

  ghost predicate Passes(l: Log, i: nat, m: nat) { Does(l, m, IsEjected(i)) && !Answered(l, m) }

  ghost predicate PassedBetween(l: Log, i: nat, k: nat, m: nat) { exists p: nat | k < p < m :: Passes(l, i, p) }

  /** Event `k` is the opening in force at `m`: the last one, with no reset since and no success since it let
      a probe through. */
  ghost predicate OpenedBy(l: Log, i: nat, k: nat, m: nat) {
    && k < m && Opens(l, i, k)
    && forall j: nat | k < j < m ::
         !Opens(l, i, j) && !Does(l, j, Reset(i)) && (Does(l, j, RecordSuccess(i)) ==> !PassedBetween(l, i, k, j))
  }

  ghost predicate InEjection(l: Log, i: nat, m: nat) { exists k: nat :: OpenedBy(l, i, k, m) }

  /** A probe was let through and nothing has decided on it yet. */
  ghost predicate Probing(l: Log, i: nat, m: nat) {
    exists k: nat :: OpenedBy(l, i, k, m) && PassedBetween(l, i, k, m)
  }

  ghost predicate Wins(l: Log, i: nat, m: nat) { Does(l, m, ClaimRecycle(i)) && Answered(l, m) }

  ghost predicate Ends(l: Log, i: nat, m: nat) { Does(l, m, Reset(i)) || Does(l, m, ReleaseRecycle(i)) }

  /** A recycle was claimed at `from` or later and has not ended. */
  ghost predicate ClaimedSince(l: Log, i: nat, from: nat, m: nat) {
    exists k: nat | from <= k < m :: Wins(l, i, k) && forall j: nat | k < j < m :: !Ends(l, i, j)
  }

  /** The process exited and was not replaced. */
  ghost predicate Exited(l: Log, i: nat, m: nat) {
    exists k: nat | k < m :: Does(l, k, MarkDead(i)) && forall j: nat | k < j < m :: !Does(l, j, Reset(i))
  }

  /** What ends a row of errors: a success, a replacement, a cleared count, or a probe let through or failed. */
  ghost predicate BreaksRow(l: Log, i: nat, m: nat) {
    || Does(l, m, RecordSuccess(i)) || Does(l, m, Reset(i)) || Does(l, m, ResetErrorCount(i))
    || (Passes(l, i, m) && InEjection(l, i, m) && !Probing(l, i, m))
    || (Does(l, m, RecordError(i)) && Probing(l, i, m))
  }

  ghost function ErrorsInRow(l: Log, i: nat, m: nat): nat {
    if m == 0 || BreaksRow(l, i, m - 1) then 0
    else ErrorsInRow(l, i, m - 1) + if Does(l, m - 1, RecordError(i)) then 1 else 0
  }

  /** How often the circuit opened since it was last closed. */
  ghost function OpeningsInRow(l: Log, i: nat, m: nat): nat {
    if m == 0 || !InEjection(l, i, m) then 0
    else OpeningsInRow(l, i, m - 1) + if Opens(l, i, m - 1) then 1 else 0
  }

  ghost function KillsSinceSuccess(l: Log, i: nat, m: nat): nat {
    if m == 0 || Does(l, m - 1, RecordSuccess(i)) then 0
    else KillsSinceSuccess(l, i, m - 1) + if Does(l, m - 1, RecordKill(i)) then 1 else 0
  }

  // ----- One event at a time -----

  ghost predicate Ceases(l: Log, i: nat, m: nat) {
    Does(l, m, Reset(i)) || (Does(l, m, RecordSuccess(i)) && Probing(l, i, m))
  }

  lemma OpenedByUnique(l: Log, i: nat, j: nat, k: nat, m: nat)
    requires OpenedBy(l, i, j, m) && OpenedBy(l, i, k, m)
    ensures j == k
  {
  }

  lemma OpenedByStep(l: Log, i: nat, k: nat, m: nat)
    requires k < m && !Opens(l, i, m)
    ensures OpenedBy(l, i, k, m + 1) <==> OpenedBy(l, i, k, m) && !Ceases(l, i, m)
  {
    if OpenedBy(l, i, k, m) && Probing(l, i, m) {
      var k2: nat :| OpenedBy(l, i, k2, m) && PassedBetween(l, i, k2, m);
      OpenedByUnique(l, i, k, k2, m);
    }
  }

  lemma InEjectionStep(l: Log, i: nat, m: nat)
    ensures InEjection(l, i, m + 1) <==> Opens(l, i, m) || (InEjection(l, i, m) && !Ceases(l, i, m))
  {
    if Opens(l, i, m) {
      assert OpenedBy(l, i, m, m + 1);
    } else {
      if InEjection(l, i, m + 1) {
        var k: nat :| OpenedBy(l, i, k, m + 1);
        OpenedByStep(l, i, k, m);
      }
      if InEjection(l, i, m) && !Ceases(l, i, m) {
        var k: nat :| OpenedBy(l, i, k, m);
        OpenedByStep(l, i, k, m);
      }
    }
  }

  lemma PassedStep(l: Log, i: nat, k: nat, m: nat)
    requires k < m
    ensures PassedBetween(l, i, k, m + 1) <==> PassedBetween(l, i, k, m) || Passes(l, i, m)
  {
  }

  lemma ProbingBy(l: Log, i: nat, k: nat, m: nat)
    requires OpenedBy(l, i, k, m)
    ensures Probing(l, i, m) <==> PassedBetween(l, i, k, m)
  {
    if Probing(l, i, m) {
      var k2: nat :| OpenedBy(l, i, k2, m) && PassedBetween(l, i, k2, m);
      OpenedByUnique(l, i, k, k2, m);
    }
  }

  lemma ProbingStep(l: Log, i: nat, m: nat)
    ensures Probing(l, i, m + 1) <==>
              !Opens(l, i, m) && InEjection(l, i, m) && !Ceases(l, i, m) && (Probing(l, i, m) || Passes(l, i, m))
  {
    if Probing(l, i, m + 1) {
      var k: nat :| OpenedBy(l, i, k, m + 1) && PassedBetween(l, i, k, m + 1);
      var p: nat :| k < p < m + 1 && Passes(l, i, p);
      assert !Opens(l, i, m);
      OpenedByStep(l, i, k, m);
      PassedStep(l, i, k, m);
    } else if !Opens(l, i, m) && InEjection(l, i, m) && !Ceases(l, i, m) {
      var k: nat :| OpenedBy(l, i, k, m);
      OpenedByStep(l, i, k, m);
      PassedStep(l, i, k, m);
      ProbingBy(l, i, k, m);
      ProbingBy(l, i, k, m + 1);
    }
  }

  lemma ClaimedStep(l: Log, i: nat, from: nat, m: nat)
    requires from <= m
    ensures ClaimedSince(l, i, from, m + 1) <==> Wins(l, i, m) || (ClaimedSince(l, i, from, m) && !Ends(l, i, m))
  {
    if ClaimedSince(l, i, from, m) && !Ends(l, i, m) {
      var k: nat :| from <= k < m && Wins(l, i, k) && forall j: nat | k < j < m :: !Ends(l, i, j);
      assert from <= k < m + 1 && forall j: nat | k < j < m + 1 :: !Ends(l, i, j);
    }
  }

  lemma ExitedStep(l: Log, i: nat, m: nat)
    ensures Exited(l, i, m + 1) <==> Does(l, m, MarkDead(i)) || (Exited(l, i, m) && !Does(l, m, Reset(i)))
  {
    if Exited(l, i, m) && !Does(l, m, Reset(i)) {
      var k: nat :| k < m && Does(l, k, MarkDead(i)) && forall j: nat | k < j < m :: !Does(l, j, Reset(i));
      assert k < m + 1 && forall j: nat | k < j < m + 1 :: !Does(l, j, Reset(i));
    }
  }

  /** The log tells the state of slot `i` before event `m`: its circuit, its flags and its counts. */
  ghost predicate TellsCircuit(l: Log, i: nat, m: nat)
    requires m <= |l.events| && i < l.n
  {
    var s := Before(l, m).fleet.slots[i];
    (s.ejected.Some? <==> InEjection(l, i, m)) && (s.HalfOpen() <==> Probing(l, i, m))
  }

  ghost predicate TellsSeries(l: Log, i: nat, m: nat)
    requires m <= |l.events| && i < l.n
  {
    Before(l, m).fleet.slots[i].series == OpeningsInRow(l, i, m)
  }

  ghost predicate TellsOpenedAt(l: Log, i: nat, k: nat, m: nat)
    requires k < m <= |l.events| && i < l.n
  {
    var s := Before(l, m).fleet.slots[i];
    s.ejected.Some? && s.ejected.value.at == l.events[k].now
  }

  ghost predicate TellsClaim(l: Log, i: nat, m: nat)
    requires m <= |l.events| && i < l.n
  {
    Before(l, m).fleet.slots[i].recycling <==> ClaimedSince(l, i, 0, m)
  }

  ghost predicate TellsExit(l: Log, i: nat, m: nat)
    requires m <= |l.events| && i < l.n
  {
    Before(l, m).fleet.slots[i].dead <==> Exited(l, i, m)
  }

  ghost predicate TellsErrors(l: Log, i: nat, m: nat)
    requires m <= |l.events| && i < l.n
  {
    Before(l, m).fleet.slots[i].errors == ErrorsInRow(l, i, m)
  }

  ghost predicate TellsKills(l: Log, i: nat, m: nat)
    requires m <= |l.events| && i < l.n
  {
    Before(l, m).fleet.slots[i].kills == KillsSinceSuccess(l, i, m)
  }

  lemma BeforeStep(l: Log, m: nat)
    requires m < |l.events|
    ensures Before(l, m + 1) == Advance(l.cfg, l.kill, Before(l, m), l.events[m])
  {
    assert l.events[..m + 1][..m] == l.events[..m];
  }

  /** Event `m` does nothing to the slot, or is one call on it whose effect and answer the specification gives. */
  lemma SlotEvent(l: Log, i: nat, m: nat) returns (op: Option<Op>, room: bool, ticket: bool)
    requires m < |l.events| && i < l.n
    ensures op.None? ==> Before(l, m + 1).fleet.slots[i] == Before(l, m).fleet.slots[i]
    ensures op.None? ==> forall o: Op | o.i == i :: !Does(l, m, o)
    ensures op.Some? ==>
              && op.value.i == i && Does(l, m, op.value) && (forall o: Op | o != op.value :: !Does(l, m, o))
              && (Before(l, m + 1).fleet.slots[i], Answered(l, m)) ==
                   SlotStep(l.cfg, Before(l, m).fleet.slots[i], op.value, room, ticket, l.events[m].now)
  {
    BeforeStep(l, m);
    op, room, ticket := None, false, false;
    var e, run := l.events[m], Before(l, m);
    if e.step.Call? {
      ApplyFrame(l.cfg, run.fleet, e.step.op, e.now);
      if e.step.op.i == i && Enabled(e.step, run.watches[i].phase) {
        op, room, ticket := Some(e.step.op), Room(l.cfg, run.fleet.slots, i), TicketFree(l.cfg, run.fleet);
      }
    }
  }

  lemma CircuitStep(l: Log, i: nat, m: nat)
    requires m < |l.events| && i < l.n && TellsCircuit(l, i, m)
    ensures TellsCircuit(l, i, m + 1)
  {
    var op, room, ticket := SlotEvent(l, i, m);
    InEjectionStep(l, i, m);
    ProbingStep(l, i, m);
  }

  /** The circuit's part of one call. */
  lemma SlotOpenings(cfg: Config, s: Slot, op: Op, room: bool, ticket: bool, now: nat)
    ensures var (t, r) := SlotStep(cfg, s, op, room, ticket, now);
            var opens := (op.RecordError? || op.ForceEject? || op.ReleaseRecycle?) && r;
            && (opens ==> t.series == s.series + 1 && t.ejected == Some(Ejection(now, false)))
            && (!opens ==> t.ejected.None? || (s.ejected.Some? && t.ejected.value.at == s.ejected.value.at))
            && (!opens ==> t.series == s.series || (t.series == 0 && t.ejected.None?))
            && (!opens && t.ejected.None? && s.ejected.Some? ==> t.series == 0)
  {
  }

  lemma OpensBy(l: Log, i: nat, m: nat, op: Op)
    requires Does(l, m, op) && op.i == i
    ensures Opens(l, i, m) <==> (op.RecordError? || op.ForceEject? || op.ReleaseRecycle?) && Answered(l, m)
  {
  }

  lemma SeriesStep(l: Log, i: nat, m: nat)
    requires m < |l.events| && i < l.n && TellsCircuit(l, i, m) && TellsSeries(l, i, m)
    ensures TellsSeries(l, i, m + 1)
  {
    var op, room, ticket := SlotEvent(l, i, m);
    CircuitStep(l, i, m);
    if op.Some? {
      SlotOpenings(l.cfg, Before(l, m).fleet.slots[i], op.value, room, ticket, l.events[m].now);
      OpensBy(l, i, m, op.value);
    } else {
      assert !Opens(l, i, m);
    }
  }

  lemma OpeningTells(l: Log, i: nat, m: nat)
    requires m < |l.events| && i < l.n && Opens(l, i, m)
    ensures TellsOpenedAt(l, i, m, m + 1)
  {
    var op, room, ticket := SlotEvent(l, i, m);
    SlotOpenings(l.cfg, Before(l, m).fleet.slots[i], op.value, room, ticket, l.events[m].now);
    OpensBy(l, i, m, op.value);
  }

  lemma OpenedAtStep(l: Log, i: nat, k: nat, m: nat)
    requires k < m < |l.events| && i < l.n && TellsOpenedAt(l, i, k, m)
    requires !Opens(l, i, m) && Before(l, m + 1).fleet.slots[i].ejected.Some?
    ensures TellsOpenedAt(l, i, k, m + 1)
  {
    var op, room, ticket := SlotEvent(l, i, m);
    if op.Some? {
      SlotOpenings(l.cfg, Before(l, m).fleet.slots[i], op.value, room, ticket, l.events[m].now);
      OpensBy(l, i, m, op.value);
    }
  }

  /** The flags' and counters' part of one call. */
  lemma SlotFlags(cfg: Config, s: Slot, op: Op, room: bool, ticket: bool, now: nat)
    ensures var (t, r) := SlotStep(cfg, s, op, room, ticket, now);
            && (t.recycling <==> (op.ClaimRecycle? && r) || (s.recycling && !op.Reset? && !op.ReleaseRecycle?))
            && (t.dead <==> op.MarkDead? || (s.dead && !op.Reset?))
            && t.kills == (if op.RecordSuccess? then 0 else s.kills + if op.RecordKill? then 1 else 0)
  {
  }

  lemma SlotErrors(cfg: Config, s: Slot, op: Op, room: bool, ticket: bool, now: nat)
    ensures var (t, r) := SlotStep(cfg, s, op, room, ticket, now);
            var breaks := || op.RecordSuccess? || op.Reset? || op.ResetErrorCount?
                          || (op.IsEjected? && !r && s.Open()) || (op.RecordError? && s.HalfOpen());
            t.errors == if breaks then 0 else s.errors + if op.RecordError? then 1 else 0
  {
  }

  lemma ClaimStep(l: Log, i: nat, m: nat)
    requires m < |l.events| && i < l.n && TellsClaim(l, i, m)
    ensures TellsClaim(l, i, m + 1)
  {
    var op, room, ticket := SlotEvent(l, i, m);
    ClaimedStep(l, i, 0, m);
    if op.Some? {
      SlotFlags(l.cfg, Before(l, m).fleet.slots[i], op.value, room, ticket, l.events[m].now);
      assert Wins(l, i, m) <==> op.value.ClaimRecycle? && Answered(l, m);
      assert Ends(l, i, m) <==> op.value.Reset? || op.value.ReleaseRecycle?;
    } else {
      assert !Wins(l, i, m) && !Ends(l, i, m);
    }
  }

  lemma ExitStep(l: Log, i: nat, m: nat)
    requires m < |l.events| && i < l.n && TellsExit(l, i, m)
    ensures TellsExit(l, i, m + 1)
  {
    var op, room, ticket := SlotEvent(l, i, m);
    ExitedStep(l, i, m);
    if op.Some? {
      SlotFlags(l.cfg, Before(l, m).fleet.slots[i], op.value, room, ticket, l.events[m].now);
    }
  }

  lemma BreaksBy(l: Log, i: nat, m: nat, op: Op)
    requires m < |l.events| && i < l.n && TellsCircuit(l, i, m) && op.i == i && Does(l, m, op)
    ensures BreaksRow(l, i, m) <==>
              || op.RecordSuccess? || op.Reset? || op.ResetErrorCount?
              || (op.IsEjected? && !Answered(l, m) && Before(l, m).fleet.slots[i].Open())
              || (op.RecordError? && Before(l, m).fleet.slots[i].HalfOpen())
  {
  }

  lemma ErrorsStep(l: Log, i: nat, m: nat)
    requires m < |l.events| && i < l.n && TellsCircuit(l, i, m) && TellsErrors(l, i, m)
    ensures TellsErrors(l, i, m + 1)
  {
    var op, room, ticket := SlotEvent(l, i, m);
    if op.Some? {
      SlotErrors(l.cfg, Before(l, m).fleet.slots[i], op.value, room, ticket, l.events[m].now);
      BreaksBy(l, i, m, op.value);
      assert Does(l, m, RecordError(i)) <==> op.value.RecordError?;
    } else {
      assert !BreaksRow(l, i, m) && !Does(l, m, RecordError(i));
    }
  }

  lemma KillsStep(l: Log, i: nat, m: nat)
    requires m < |l.events| && i < l.n && TellsKills(l, i, m)
    ensures TellsKills(l, i, m + 1)
  {
    var op, room, ticket := SlotEvent(l, i, m);
    if op.Some? {
      SlotFlags(l.cfg, Before(l, m).fleet.slots[i], op.value, room, ticket, l.events[m].now);
    }
  }

  lemma {:induction false} CircuitTold(l: Log, i: nat, m: nat)
    requires m <= |l.events| && i < l.n
    ensures TellsCircuit(l, i, m)
  {
    if m > 0 {
      CircuitTold(l, i, m - 1);
      CircuitStep(l, i, m - 1);
    }
  }

  lemma {:induction false} SeriesTold(l: Log, i: nat, m: nat)
    requires m <= |l.events| && i < l.n
    ensures TellsSeries(l, i, m)
  {
    if m > 0 {
      SeriesTold(l, i, m - 1);
      CircuitTold(l, i, m - 1);
      SeriesStep(l, i, m - 1);
    }
  }

  lemma {:induction false} OpenedAtTold(l: Log, i: nat, k: nat, m: nat)
    requires m <= |l.events| && i < l.n && OpenedBy(l, i, k, m)
    ensures TellsOpenedAt(l, i, k, m)
    decreases m
  {
    if k == m - 1 {
      OpeningTells(l, i, k);
    } else {
      assert !Opens(l, i, m - 1);
      OpenedByStep(l, i, k, m - 1);
      OpenedAtTold(l, i, k, m - 1);
      assert InEjection(l, i, m);
      CircuitTold(l, i, m);
      OpenedAtStep(l, i, k, m - 1);
    }
  }

  lemma {:induction false} FlagsTold(l: Log, i: nat, m: nat)
    requires m <= |l.events| && i < l.n
    ensures TellsClaim(l, i, m) && TellsExit(l, i, m)
  {
    if m > 0 {
      FlagsTold(l, i, m - 1);
      ClaimStep(l, i, m - 1);
      ExitStep(l, i, m - 1);
    }
  }

  lemma {:induction false} CountsTold(l: Log, i: nat, m: nat)
    requires m <= |l.events| && i < l.n
    ensures TellsErrors(l, i, m) && TellsKills(l, i, m)
  {
    if m > 0 {
      CountsTold(l, i, m - 1);
      CircuitTold(l, i, m - 1);
      ErrorsStep(l, i, m - 1);
      KillsStep(l, i, m - 1);
    }
  }

  // ----- What the log decides -----

  ghost function InEjectionAt(l: Log, m: nat): set<nat> { set j | 0 <= j < l.n && InEjection(l, j, m) }

  ghost function ClaimedAt(l: Log, m: nat): set<nat> { set j | 0 <= j < l.n && ClaimedSince(l, j, 0, m) }

  lemma LogTellsSets(l: Log, i: nat, m: nat)
    requires m <= |l.events|
    ensures var slots := Before(l, m).fleet.slots;
            EjectedOthers(slots, i, l.n) == InEjectionAt(l, m) - {i} && Recycling(slots) == ClaimedAt(l, m)
  {
    var slots := Before(l, m).fleet.slots;
    forall j: nat | j < l.n
      ensures slots[j].ejected.Some? <==> InEjection(l, j, m)
      ensures slots[j].recycling <==> ClaimedSince(l, j, 0, m)
    {
      CircuitTold(l, j, m);
      FlagsTold(l, j, m);
    }
  }

  lemma {:induction false} LogKeepsTickets(l: Log, m: nat)
    requires m <= |l.events|
    ensures TicketsMatch(l.cfg, Before(l, m).fleet)
  {
    if m == 0 {
      assert Recycling(Before(l, 0).fleet.slots) == {};
    } else {
      LogKeepsTickets(l, m - 1);
      BeforeStep(l, m - 1);
      var e := l.events[m - 1];
      if e.step.Call? {
        ApplyKeepsTickets(l.cfg, Before(l, m - 1).fleet, e.step.op, e.now);
      }
    }
  }

  lemma ErrorAnswer(cfg: Config, f: Fleet, i: nat, now: nat)
    requires i < |f.slots|
    ensures Apply(cfg, f, RecordError(i), now).1 <==>
              || f.slots[i].HalfOpen()
              || (f.slots[i].ejected.None? && 1 <= cfg.threshold <= f.slots[i].errors + 1 && Room(cfg, f.slots, i))
  {
  }

  lemma ClaimAnswer(cfg: Config, f: Fleet, i: nat, now: nat)
    requires i < |f.slots| && TicketsMatch(cfg, f)
    ensures Apply(cfg, f, ClaimRecycle(i), now).1 <==>
              && !f.slots[i].dead && f.slots[i].ejected.None? && !f.slots[i].recycling
              && |Recycling(f.slots)| < PercentCap(|f.slots|, cfg.recycleMaxPercent)
  {
  }

  lemma ProbeAnswer(cfg: Config, f: Fleet, i: nat, now: nat)
    requires i < |f.slots|
    ensures Apply(cfg, f, IsEjected(i), now).1 <==>
              f.slots[i].Open() && now < f.slots[i].ejected.value.at + Backoff(cfg, f.slots[i].series)
  {
  }

  /** An error opens the circuit exactly when a probe is out, or when the slot is in no ejection, this error completes
      a threshold's worth in a row and fewer other slots are in ejection than the cap allows. */
  lemma ErrorsFollowTheLog(l: Log, i: nat, m: nat)
    requires Does(l, m, RecordError(i))
    ensures Answered(l, m) <==>
              || Probing(l, i, m)
              || (&& !InEjection(l, i, m)
                  && 1 <= l.cfg.threshold <= ErrorsInRow(l, i, m) + 1
                  && |InEjectionAt(l, m) - {i}| < PercentCap(l.n, l.cfg.maxPercent))
  {
    ErrorAnswer(l.cfg, Before(l, m).fleet, i, l.events[m].now);
    CircuitTold(l, i, m);
    CountsTold(l, i, m);
    LogTellsSets(l, i, m);
  }

  /** A claim is won exactly by a slot that runs, is in no ejection and has no claim, while fewer than the cap are
      claimed. */
  lemma ClaimsFollowTheLog(l: Log, i: nat, m: nat)
    requires Does(l, m, ClaimRecycle(i))
    ensures Answered(l, m) <==>
              && !Exited(l, i, m) && !InEjection(l, i, m) && !ClaimedSince(l, i, 0, m)
              && |ClaimedAt(l, m)| < PercentCap(l.n, l.cfg.recycleMaxPercent)
  {
    LogKeepsTickets(l, m);
    ClaimAnswer(l.cfg, Before(l, m).fleet, i, l.events[m].now);
    CircuitTold(l, i, m);
    FlagsTold(l, i, m);
    LogTellsSets(l, i, m);
  }

  /** A forced ejection, alone or at the end of a failed recycle, opens the circuit exactly when no opening is in
      force. */
  lemma ForcingFollowsTheLog(l: Log, i: nat, m: nat)
    requires Does(l, m, ForceEject(i)) || Does(l, m, ReleaseRecycle(i))
    ensures Answered(l, m) <==> !InEjection(l, i, m)
  {
    CircuitTold(l, i, m);
  }

  /** An escalation starts exactly after enough errors in a row, with no claim on the slot and fewer than three kills
      counted since its last success. */
  lemma ChecksFollowTheLog(l: Log, i: nat, m: nat)
    requires m < |l.events| && i < l.n && l.events[m].step == Check(i) && Before(l, m).watches[i].phase.Idle?
    ensures Before(l, m + 1).watches[i].phase.Checked? <==>
              && 1 <= l.kill <= ErrorsInRow(l, i, m)
              && !ClaimedSince(l, i, 0, m)
              && KillsSinceSuccess(l, i, m) < 3
  {
    FlagsTold(l, i, m);
    CountsTold(l, i, m);
    BeforeStep(l, m);
  }

  /** Opening `k` is in force at `m`, has let no probe through and its backoff, that of the number of openings since
      the circuit was last closed, still lasts. */
  ghost predicate BacksOff(l: Log, i: nat, k: nat, m: nat)
    requires m < |l.events|
  {
    && OpenedBy(l, i, k, m) && !PassedBetween(l, i, k, m)
    && l.events[m].now < l.events[k].now + DoublingWait(l.cfg, OpeningsInRow(l, i, m))
  }

  /** A probe is refused exactly while some opening backs off. */
  lemma ProbesFollowTheLog(l: Log, i: nat, m: nat)
    requires Does(l, m, IsEjected(i))
    ensures Answered(l, m) <==> exists k: nat :: BacksOff(l, i, k, m)
  {
    ProbeAnswer(l.cfg, Before(l, m).fleet, i, l.events[m].now);
    CircuitTold(l, i, m);
    SeriesTold(l, i, m);
    BackoffDoubles(l.cfg, OpeningsInRow(l, i, m));
    forall k: nat | OpenedBy(l, i, k, m) ensures Answered(l, m) <==> BacksOff(l, i, k, m) {
      ProbingBy(l, i, k, m);
      OpenedAtTold(l, i, k, m);
      assert InEjection(l, i, m);
    }
  }

  // ----- A signal that meets a recycle -----

  /** Event `c` is the check of the escalation that has not sent its signal before event `m`. */
  ghost predicate CheckedBy(l: Log, i: nat, c: nat, m: nat) {
    && c < m <= |l.events| && i < l.n
    && l.events[c].step == Check(i)
    && Before(l, c).watches[i].phase.Idle? && Before(l, c + 1).watches[i].phase.Checked?
    && forall j | c < j < m :: l.events[j].step != Send(i)
  }

  /** An escalation between its check and its send waits, whatever else is called. */
  lemma PhaseStep(l: Log, i: nat, m: nat)
    requires m < |l.events| && i < l.n
    ensures Before(l, m).watches[i].phase.Checked? && l.events[m].step != Send(i) ==>
              Before(l, m + 1).watches[i].phase.Checked?
    ensures Before(l, m + 1).watches[i].phase.Checked? && !Before(l, m).watches[i].phase.Checked? ==>
              CheckedBy(l, i, m, m + 1)
    ensures Before(l, m + 1).watches[i].phase.Checked? && Before(l, m).watches[i].phase.Checked? ==>
              l.events[m].step != Send(i)
  {
    BeforeStep(l, m);
  }

  lemma {:induction false} CheckedByPhase(l: Log, i: nat, c: nat, m: nat)
    requires CheckedBy(l, i, c, m)
    ensures Before(l, m).watches[i].phase.Checked?
  {
    if m > c + 1 {
      CheckedByPhase(l, i, c, m - 1);
      PhaseStep(l, i, m - 1);
    }
  }

  lemma {:induction false} PhaseCheckedBy(l: Log, i: nat, m: nat) returns (c: nat)
    requires m <= |l.events| && i < l.n && Before(l, m).watches[i].phase.Checked?
    ensures CheckedBy(l, i, c, m)
  {
    PhaseStep(l, i, m - 1);
    if Before(l, m - 1).watches[i].phase.Checked? {
      c := PhaseCheckedBy(l, i, m - 1);
    } else {
      c := m - 1;
    }
  }

  /** The slot was not claimed when it was checked, so what is claimed since is claimed after the check. */
  lemma {:induction false} ClaimedSinceCheck(l: Log, i: nat, c: nat, m: nat)
    requires CheckedBy(l, i, c, m)
    ensures ClaimedSince(l, i, 0, m) <==> ClaimedSince(l, i, c + 1, m)
  {
    if m == c + 1 {
      FlagsTold(l, i, c + 1);
      BeforeStep(l, c);
    } else {
      ClaimedSinceCheck(l, i, c, m - 1);
      ClaimedStep(l, i, 0, m - 1);
      ClaimedStep(l, i, c + 1, m - 1);
    }
  }

  ghost function Clashes(l: Log, i: nat, m: nat): nat
    requires m <= |l.events| && i < l.n
  {
    Before(l, m).watches[i].clashes
  }

  lemma SendClashes(l: Log, i: nat, m: nat)
    requires m < |l.events| && i < l.n
    ensures Clashes(l, i, m + 1) > Clashes(l, i, m) <==>
              l.events[m].step == Send(i) && Before(l, m).watches[i].phase.Checked? && ClaimedSince(l, i, 0, m)
  {
    BeforeStep(l, m);
    assert TellsClaim(l, i, m) by { FlagsTold(l, i, m); }
  }

  ghost predicate ClaimedAfterCheck(l: Log, i: nat, m: nat) {
    exists c: nat :: CheckedBy(l, i, c, m) && ClaimedSince(l, i, c + 1, m)
  }

  /** A signal goes to a recycling slot exactly when a recycle of it was claimed, and not ended, between the check of
      that escalation and its send. */
  lemma SignalMeetsRecycle(l: Log, i: nat, m: nat)
    requires m < |l.events| && i < l.n
    ensures Clashes(l, i, m + 1) > Clashes(l, i, m) <==> l.events[m].step == Send(i) && ClaimedAfterCheck(l, i, m)
  {
    SendClashes(l, i, m);
    if ClaimedAfterCheck(l, i, m) {
      var c: nat :| CheckedBy(l, i, c, m) && ClaimedSince(l, i, c + 1, m);
      CheckedByPhase(l, i, c, m);
      ClaimedSinceCheck(l, i, c, m);
    }
    if Before(l, m).watches[i].phase.Checked? {
      var c := PhaseCheckedBy(l, i, m);
      ClaimedSinceCheck(l, i, c, m);
    }
  }

  /** The shortest such run: an error, the check, a won claim, the send. */
  lemma StaleSignal(cfg: Config, now: nat)
    requires cfg.threshold != 1
    ensures var events := [Event(Call(RecordError(0)), now), Event(Check(0), now),
                           Event(Call(ClaimRecycle(0)), now), Event(Send(0), now)];
            var run := Exec(cfg, 1, 1, events);
            run.fleet.slots[0].recycling && run.watches[0].burst == 1 && run.watches[0].clashes == 1
  {
    var e1, e2, e3, e4 := Event(Call(RecordError(0)), now), Event(Check(0), now),
                          Event(Call(ClaimRecycle(0)), now), Event(Send(0), now);
    var r0 := Exec(cfg, 1, 1, []);
    var r1 := Advance(cfg, 1, r0, e1);
    var r2 := Advance(cfg, 1, r1, e2);
    var r3 := Advance(cfg, 1, r2, e3);
    assert [e1][..0] == [] && [e1, e2][..1] == [e1] && [e1, e2, e3][..2] == [e1, e2];
    assert [e1, e2, e3, e4][..3] == [e1, e2, e3];
    assert Exec(cfg, 1, 1, [e1]) == r1;
    assert Exec(cfg, 1, 1, [e1, e2]) == r2;
    assert Exec(cfg, 1, 1, [e1, e2, e3]) == r3;
  }
}
