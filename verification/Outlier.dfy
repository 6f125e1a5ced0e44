/** The per-worker circuit breaker, liveness flags and recycle ticket of a model version's fleet.

    `SlotStep` and `Apply` are the specification; the class `OutlierState` is the
    mutable object the scheduler shares, and each of its methods is proved to be one
    application of the specification. What every run of these calls keeps is proved
    in `OutlierRuns`. */
module Outlier {
  import opened Common

  const MAX_CONSECUTIVE_KILLS := 3

  datatype Config = Config(threshold: nat, timeout: nat, maxPercent: nat, maxTimeout: nat, recycleMaxPercent: nat)

  /** An open circuit: when it opened, and whether it now lets a probe through. */
  datatype Ejection = Ejection(at: nat, halfOpen: bool)

  datatype Slot = Slot(errors: nat, series: nat, ejected: Option<Ejection>, kills: nat, dead: bool, recycling: bool)
  {
    predicate Open() { ejected.Some? && !ejected.value.halfOpen }

    predicate HalfOpen() { ejected.Some? && ejected.value.halfOpen }
  }

  const FreshSlot := Slot(0, 0, None, 0, false, false)

  /** `claims` counts the recycle tickets taken; it is an `int` because the source subtracts unchecked. */
  datatype Fleet = Fleet(slots: seq<Slot>, claims: int)

  datatype Op =
    | RecordSuccess(i: nat)
    | RecordError(i: nat)
    | IsEjected(i: nat)
    | ForceEject(i: nat)
    | Reset(i: nat)
    | ClaimRecycle(i: nat)
    | ReleaseRecycle(i: nat)
    | MarkDead(i: nat)
    | RecordKill(i: nat)
    | ResetErrorCount(i: nat)

  // ----- Backoff -----

  function Pow2(n: nat): nat { if n == 0 then 1 else 2 * Pow2(n - 1) }

  /** A maximum configured below the base degenerates to a fixed backoff. */
  function MaxEjectionTime(cfg: Config): nat { Max(cfg.maxTimeout, cfg.timeout) }

  function Backoff(cfg: Config, series: nat): nat {
    Min(cfg.timeout * Pow2(Min(Max(series - 1, 0), 20)), MaxEjectionTime(cfg))
  }

  lemma {:induction false} Pow2Monotone(m: nat, n: nat)
    requires m <= n
    ensures 1 <= Pow2(m) <= Pow2(n)
    decreases n
  {
    if m < n {
      Pow2Monotone(m, n - 1);
    } else if m > 0 {
      Pow2Monotone(m - 1, m - 1);
    }
  }

  lemma ScaleMonotone(c: nat, x: nat, y: nat)
    requires x <= y
    ensures c * x <= c * y
  {
    assert c * y - c * x == c * (y - x);
  }

  /** Every backoff lies between the base and the maximum, and a longer series never backs off less. */
  lemma BackoffGrows(cfg: Config, j: nat, k: nat)
    requires j <= k
    ensures cfg.timeout <= Backoff(cfg, j) <= Backoff(cfg, k) <= MaxEjectionTime(cfg)
  {
    var a, b := Min(Max(j - 1, 0), 20), Min(Max(k - 1, 0), 20);
    Pow2Monotone(0, a);
    Pow2Monotone(a, b);
    ScaleMonotone(cfg.timeout, 1, Pow2(a));
    ScaleMonotone(cfg.timeout, Pow2(a), Pow2(b));
  }

  /** The wait after opening `k` of an episode, from the configuration alone: the base, doubled at every further opening
      up to the twenty-first, never above the larger of the base and the configured maximum. */
  function DoublingWait(cfg: Config, k: nat): nat {
    if k <= 1 then cfg.timeout
    else if k > 21 then DoublingWait(cfg, 21)
    else Min(2 * DoublingWait(cfg, k - 1), Max(cfg.maxTimeout, cfg.timeout))
  }

  lemma DoublingStep(cfg: Config, k: nat)
    requires 1 <= k <= 20
    ensures Backoff(cfg, k + 1) == Min(2 * Backoff(cfg, k), Max(cfg.maxTimeout, cfg.timeout))
  {
    var p := Pow2(k - 1);
    assert Pow2(k) == 2 * p;
    assert cfg.timeout * (2 * p) == 2 * (cfg.timeout * p);
  }

  lemma {:induction false} BackoffDoubles(cfg: Config, k: nat)
    ensures Backoff(cfg, k) == DoublingWait(cfg, k)
    decreases k
  {
    if k <= 1 {
      assert cfg.timeout * Pow2(0) == cfg.timeout;
    } else if k > 21 {
      BackoffDoubles(cfg, 21);
    } else {
      BackoffDoubles(cfg, k - 1);
      DoublingStep(cfg, k - 1);
    }
  }

  // ----- Specification of one call -----

  function Trip(s: Slot, now: nat): Slot {
    s.(series := s.series + 1, ejected := Some(Ejection(now, false)))
  }

  /** One call on its slot. `room`: fewer other slots are ejected than the cap allows;
      `ticket`: a recycle ticket is free. The flag is what the call returns (false for calls without a result). */
  function SlotStep(cfg: Config, s: Slot, op: Op, room: bool, ticket: bool, now: nat): (Slot, bool) {
    match op
    case RecordSuccess(_) =>
      var t := s.(errors := 0, kills := 0);
      (if s.HalfOpen() then t.(ejected := None, series := 0) else t, false)
    case RecordError(_) =>
      if s.HalfOpen() then (Trip(s, now).(errors := 0), true)
      else
        var t := s.(errors := s.errors + 1);
        if s.ejected.None? && cfg.threshold > 0 && t.errors >= cfg.threshold && room
        then (Trip(t, now), true)
        else (t, false)
    case IsEjected(_) =>
      if !s.Open() then (s, false)
      else if now - s.ejected.value.at >= Backoff(cfg, s.series)
      then (s.(ejected := Some(Ejection(s.ejected.value.at, true)), errors := 0), false)
      else (s, true)
    case ForceEject(_) => if s.ejected.None? then (Trip(s, now), true) else (s, false)
    case Reset(_) => (s.(errors := 0, series := 0, dead := false, recycling := false, ejected := None), false)
    case ClaimRecycle(_) =>
      if s.dead || s.ejected.Some? || s.recycling || !ticket then (s, false) else (s.(recycling := true), true)
    case ReleaseRecycle(_) =>
      var t := s.(recycling := false);
      if s.ejected.None? then (Trip(t, now), true) else (t, false)
    case MarkDead(_) => (s.(dead := true), false)
    case RecordKill(_) => (s.(kills := s.kills + 1), false)
    case ResetErrorCount(_) => (s.(errors := 0), false)
  }

  ghost function EjectedOthers(slots: seq<Slot>, i: nat, upTo: nat): set<nat>
    requires upTo <= |slots|
  {
    set j | 0 <= j < upTo && j != i && slots[j].ejected.Some?
  }

  ghost function Recycling(slots: seq<Slot>): set<nat> { set j | 0 <= j < |slots| && slots[j].recycling }

  ghost predicate Room(cfg: Config, slots: seq<Slot>, i: nat) {
    |EjectedOthers(slots, i, |slots|)| < PercentCap(|slots|, cfg.maxPercent)
  }

  predicate TicketFree(cfg: Config, f: Fleet) { f.claims < PercentCap(|f.slots|, cfg.recycleMaxPercent) }

  /** The ticket is taken by a call that sets the slot's flag and returned by one that clears it. */
  function ClaimsAfter(claims: int, was: bool, becomes: bool): int {
    if becomes && !was then claims + 1 else if was && !becomes then claims - 1 else claims
  }

  /** One call on the fleet: an index outside it is a no-op that returns false. */
  ghost function Apply(cfg: Config, f: Fleet, op: Op, now: nat): (Fleet, bool) {
    if op.i >= |f.slots| then (f, false)
    else
      var s := f.slots[op.i];
      var (t, r) := SlotStep(cfg, s, op, Room(cfg, f.slots, op.i), TicketFree(cfg, f), now);
      (Fleet(f.slots[op.i := t], ClaimsAfter(f.claims, s.recycling, t.recycling)), r)
  }

  /** A call touches its own slot alone, and only a claim starts a recycle. */
  lemma ApplyFrame(cfg: Config, f: Fleet, op: Op, now: nat)
    ensures var g := Apply(cfg, f, op, now).0;
            && |g.slots| == |f.slots|
            && (forall j | 0 <= j < |f.slots| && j != op.i :: g.slots[j] == f.slots[j])
            && (!op.ClaimRecycle? && op.i < |f.slots| && g.slots[op.i].recycling ==> f.slots[op.i].recycling)
  {
  }

  ghost predicate TicketsMatch(cfg: Config, f: Fleet) {
    f.claims == |Recycling(f.slots)| <= PercentCap(|f.slots|, cfg.recycleMaxPercent)
  }

  lemma ApplyKeepsTickets(cfg: Config, f: Fleet, op: Op, now: nat)
    requires TicketsMatch(cfg, f)
    ensures TicketsMatch(cfg, Apply(cfg, f, op, now).0)
  {
    ApplyFrame(cfg, f, op, now);
    var g := Apply(cfg, f, op, now).0;
    if op.i < |f.slots| {
      SizesDiffer(Recycling(f.slots), Recycling(g.slots), op.i);
      assert g.slots[op.i].recycling && !f.slots[op.i].recycling ==> TicketFree(cfg, f);
    }
  }

  // ----- Probes -----

  function ProbedSlot(cfg: Config, s: Slot, now: nat): Slot { SlotStep(cfg, s, IsEjected(0), false, false, now).0 }

  /** The fleet after `is_ejected` was asked of the slots in `probed`, in any order and any number of times. */
  ghost function Probed(cfg: Config, f: Fleet, probed: set<nat>, now: nat): Fleet {
    Fleet(seq(|f.slots|, j requires 0 <= j < |f.slots| =>
                if j in probed then ProbedSlot(cfg, f.slots[j], now) else f.slots[j]),
          f.claims)
  }

  /** `t` is `s`, or `s` let a probe through because its backoff was up by `now`. */
  ghost predicate AtMostHalfOpened(cfg: Config, s: Slot, t: Slot, now: nat) {
    || t == s
    || (&& s.Open() && now - s.ejected.value.at >= Backoff(cfg, s.series)
        && t == s.(ejected := Some(Ejection(s.ejected.value.at, true)), errors := 0))
  }

  lemma ProbeOnlyHalfOpens(cfg: Config, s: Slot, now: nat)
    ensures AtMostHalfOpened(cfg, s, ProbedSlot(cfg, s, now), now)
  {
  }

  lemma ProbedNone(cfg: Config, f: Fleet, now: nat)
    ensures Probed(cfg, f, {}, now) == f
  {
    assert Probed(cfg, f, {}, now).slots == f.slots;
  }

  lemma ProbedTwice(cfg: Config, f: Fleet, a: set<nat>, b: set<nat>, now: nat)
    ensures Probed(cfg, Probed(cfg, f, a, now), b, now) == Probed(cfg, f, a + b, now)
  {
    assert Probed(cfg, Probed(cfg, f, a, now), b, now).slots == Probed(cfg, f, a + b, now).slots;
  }

  lemma ProbedOne(cfg: Config, f: Fleet, i: nat, now: nat)
    ensures Apply(cfg, f, IsEjected(i), now).0 == Probed(cfg, f, {i}, now)
  {
    assert Apply(cfg, f, IsEjected(i), now).0.slots == Probed(cfg, f, {i}, now).slots;
  }

  // ----- The shared object -----

  class OutlierState {
    const cfg: Config
    const slots: array<Slot>
    var claims: int

    ghost function View(): Fleet
      reads this, slots
    {
      Fleet(slots[..], claims)
    }

    constructor (numWorkers: nat, cfg: Config)
      ensures this.cfg == cfg && fresh(slots)
      ensures View() == Fleet(seq(numWorkers, _ => FreshSlot), 0)
    {
      this.cfg := cfg;
      slots := new Slot[numWorkers](_ => FreshSlot);
      claims := 0;
    }

    predicate IsDead(i: nat)
      reads slots
    {
      i < slots.Length && slots[i].dead
    }

    predicate IsRecycling(i: nat)
      reads slots
    {
      i < slots.Length && slots[i].recycling
    }

    method RecordSuccess(i: nat, now: nat)
      modifies slots
      ensures View() == Apply(cfg, old(View()), Op.RecordSuccess(i), now).0
    {
      if i < slots.Length {
        var s := slots[i].(errors := 0, kills := 0);
        if s.HalfOpen() {
          s := s.(ejected := None, series := 0);
        }
        slots[i] := s;
      }
    }

    method RecordKill(i: nat, now: nat)
      modifies slots
      ensures View() == Apply(cfg, old(View()), Op.RecordKill(i), now).0
    {
      if i < slots.Length {
        slots[i] := slots[i].(kills := slots[i].kills + 1);
      }
    }

    method ResetErrorCount(i: nat, now: nat)
      modifies slots
      ensures View() == Apply(cfg, old(View()), Op.ResetErrorCount(i), now).0
    {
      if i < slots.Length {
        slots[i] := slots[i].(errors := 0);
      }
    }

    method MarkDead(i: nat, now: nat)
      modifies slots
      ensures View() == Apply(cfg, old(View()), Op.MarkDead(i), now).0
    {
      if i < slots.Length {
        slots[i] := slots[i].(dead := true);
      }
    }

    method Reset(i: nat, now: nat)
      modifies this`claims, slots
      ensures View() == Apply(cfg, old(View()), Op.Reset(i), now).0
    {
      if i < slots.Length {
        var s := slots[i];
        if s.recycling {
          claims := claims - 1;
        }
        slots[i] := s.(errors := 0, series := 0, dead := false, recycling := false, ejected := None);
      }
    }

    method ClaimRecycle(i: nat, now: nat) returns (won: bool)
      modifies this`claims, slots
      ensures (View(), won) == Apply(cfg, old(View()), Op.ClaimRecycle(i), now)
    {
      assert i < slots.Length ==> slots[..][i := slots[i]] == slots[..];
      if i >= slots.Length || slots[i].dead || slots[i].ejected.Some? || slots[i].recycling {
        return false;
      }
      slots[i] := slots[i].(recycling := true);
      if claims >= PercentCap(slots.Length, cfg.recycleMaxPercent) {
        slots[i] := slots[i].(recycling := false);
        return false;
      }
      claims := claims + 1;
      won := true;
    }

    method ForceEject(i: nat, now: nat) returns (ejected: bool)
      modifies slots
      ensures (View(), ejected) == Apply(cfg, old(View()), Op.ForceEject(i), now)
    {
      assert i < slots.Length ==> slots[..][i := slots[i]] == slots[..];
      if i >= slots.Length || slots[i].ejected.Some? {
        return false;
      }
      slots[i] := Trip(slots[i], now);
      ejected := true;
    }

    method ReleaseRecycle(i: nat, now: nat)
      modifies this`claims, slots
      ensures View() == Apply(cfg, old(View()), Op.ReleaseRecycle(i), now).0
    {
      if i < slots.Length && slots[i].recycling {
        slots[i] := slots[i].(recycling := false);
        claims := claims - 1;
      }
      var _ := ForceEject(i, now);
    }

    method RecordError(i: nat, now: nat) returns (newlyEjected: bool)
      modifies slots
      ensures (View(), newlyEjected) == Apply(cfg, old(View()), Op.RecordError(i), now)
    {
      assert i < slots.Length ==> slots[..][i := slots[i]] == slots[..];
      if i >= slots.Length {
        return false;
      }
      var s := slots[i];
      if s.HalfOpen() {
        slots[i] := Trip(s, now).(errors := 0);
        return true;
      }
      slots[i] := s.(errors := s.errors + 1);
      if s.ejected.Some? {
        return false;
      }
      if cfg.threshold > 0 && slots[i].errors >= cfg.threshold {
        assert EjectedOthers(slots[..], i, slots.Length) == EjectedOthers(old(slots[..]), i, slots.Length);
        assert slots[..] == old(slots[..])[i := slots[i]];
        newlyEjected := MaybeEject(i, now);
        assert slots[..] == old(slots[..])[i := slots[i]];
      } else {
        newlyEjected := false;
      }
    }

    /** Ejects the slot unless the fleet's ejection cap is reached by the others. */
    method MaybeEject(i: nat, now: nat) returns (ejected: bool)
      requires i < slots.Length
      modifies slots
      ensures ejected <==> old(slots[i]).ejected.None? && Room(cfg, old(slots[..]), i)
      ensures slots[..] == if ejected then old(slots[..])[i := Trip(old(slots[i]), now)] else old(slots[..])
    {
      if slots[i].ejected.Some? {
        return false;
      }
      var count := 0;
      for j := 0 to slots.Length
        invariant slots[..] == old(slots[..])
        invariant count == |EjectedOthers(slots[..], i, j)|
      {
        assert EjectedOthers(slots[..], i, j + 1) ==
               EjectedOthers(slots[..], i, j) + (if j != i && slots[j].ejected.Some? then {j} else {});
        if j != i && slots[j].ejected.Some? {
          count := count + 1;
        }
      }
      if count < PercentCap(slots.Length, cfg.maxPercent) {
        slots[i] := Trip(slots[i], now);
        return true;
      }
      return false;
    }

    method IsEjected(i: nat, now: nat) returns (ejected: bool)
      modifies slots
      ensures (View(), ejected) == Apply(cfg, old(View()), Op.IsEjected(i), now)
    {
      assert i < slots.Length ==> slots[..][i := slots[i]] == slots[..];
      if i >= slots.Length || !slots[i].Open() {
        return false;
      }
      var at := slots[i].ejected.value.at;
      if now - at >= Backoff(cfg, slots[i].series) {
        slots[i] := slots[i].(ejected := Some(Ejection(at, true)), errors := 0);
        return false;
      }
      return true;
    }

    /** Asks for a kill and respawn of a slot that keeps failing; `signalled` says a signal was sent. */
    method EscalateToKill(i: nat, killThreshold: nat, hasChannel: bool, now: nat) returns (signalled: bool)
      modifies slots
      ensures signalled <==>
                && hasChannel && i < slots.Length && 1 <= killThreshold <= old(slots[i]).errors
                && !old(slots[i]).recycling && old(slots[i]).kills < 3
      ensures View() == if signalled then
                Apply(cfg, Apply(cfg, old(View()), Op.RecordKill(i), now).0, Op.ResetErrorCount(i), now).0
              else old(View())
    {
      var errors := if i < slots.Length then slots[i].errors else 0;
      if killThreshold == 0 || errors < killThreshold {
        return false;
      }
      if slots[i].recycling || !hasChannel || slots[i].kills >= MAX_CONSECUTIVE_KILLS {
        return false;
      }
      RecordKill(i, now);
      ResetErrorCount(i, now);
      signalled := true;
    }
  }

  /** The guard of a kill escalation. */
  predicate WouldSignal(s: Slot, killThreshold: nat) {
    killThreshold > 0 && s.errors >= killThreshold && !s.recycling && s.kills < MAX_CONSECUTIVE_KILLS
  }
}
