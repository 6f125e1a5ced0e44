/** Worker selection: tiered least-loaded, power of two, rendezvous, affinity and direct pins.

    A selection asks `is_ejected` of the slots it considers, and that call may turn a slot
    half-open. Each picker says what it returns in terms of the health seen when it began, and
    exactly which slots it probed. */
module Pickers {
  import opened Common
  import opened Outlier
  import opened Rendezvous

  datatype Health = Health(dead: bool, ejected: bool, recycling: bool)

  // ----- What a selection sees of the outlier state -----

  function HealthOf(cfg: Config, f: Fleet, i: nat, now: nat): Health {
    if i >= |f.slots| then Health(false, false, false)
    else
      var s := f.slots[i];
      Health(s.dead, s.Open() && now - s.ejected.value.at < Backoff(cfg, s.series), s.recycling)
  }

  function Snapshot(cfg: Config, f: Fleet, n: nat, now: nat): seq<Health> {
    seq(n, i requires i >= 0 => HealthOf(cfg, f, i, now))
  }

  /** Probing a slot may turn it half-open, yet the answer is the snapshot's and the snapshot stays as it was:
      a picker that probes as it goes sees one consistent picture. */
  lemma ProbingKeepsSnapshot(cfg: Config, f: Fleet, i: nat, n: nat, now: nat)
    ensures var (g, r) := Apply(cfg, f, IsEjected(i), now);
            r == HealthOf(cfg, f, i, now).ejected && Snapshot(cfg, g, n, now) == Snapshot(cfg, f, n, now)
  {
    var g := Apply(cfg, f, IsEjected(i), now).0;
    forall j | 0 <= j < n ensures HealthOf(cfg, g, j, now) == HealthOf(cfg, f, j, now) {
    }
  }

  lemma ProbedSnapshot(cfg: Config, f: Fleet, probed: set<nat>, n: nat, now: nat)
    ensures Snapshot(cfg, Probed(cfg, f, probed, now), n, now) == Snapshot(cfg, f, n, now)
  {
    var g := Probed(cfg, f, probed, now);
    forall j | 0 <= j < n ensures HealthOf(cfg, g, j, now) == HealthOf(cfg, f, j, now) {
    }
  }

  // ----- Tiers -----

  const ACTIVE := 0
  const IMPAIRED := 1
  const FAILED := 2
  const DEAD := 3

  /** How far down the preference order worker `i` stands; a dead worker is no candidate at all. */
  function Tier(health: seq<Health>, exclude: seq<nat>, i: nat): nat
    requires i < |health|
  {
    if health[i].dead then DEAD
    else if i in exclude then FAILED
    else if health[i].ejected || health[i].recycling then IMPAIRED
    else ACTIVE
  }

  predicate Usable(health: seq<Health>, exclude: seq<nat>, i: nat) {
    i < |health| && Tier(health, exclude, i) == ACTIVE
  }

  ghost function UsableSet(health: seq<Health>, exclude: seq<nat>): set<nat> {
    set i | 0 <= i < |health| && Usable(health, exclude, i)
  }

  /** In range, not dead if any worker lives, not excluded if any live one is not, active if any active one is not. */
  ghost predicate Safe(health: seq<Health>, exclude: seq<nat>, r: nat) {
    && r < |health|
    && forall i | 0 <= i < |health| && Tier(health, exclude, i) < DEAD ::
         Tier(health, exclude, r) <= Tier(health, exclude, i)
  }

  /** What a safe selection promises, clause by clause. */
  lemma SafeMeans(health: seq<Health>, exclude: seq<nat>, r: nat)
    requires Safe(health, exclude, r)
    ensures (exists i | 0 <= i < |health| :: !health[i].dead) ==> !health[r].dead
    ensures (exists i | 0 <= i < |health| :: !health[i].dead && i !in exclude) ==> r !in exclude
    ensures (exists i | 0 <= i < |health| :: health[i] == Health(false, false, false) && i !in exclude) ==>
              health[r] == Health(false, false, false) && r !in exclude
  {
    assert forall i | 0 <= i < |health| :: health[i].dead <==> Tier(health, exclude, i) == DEAD;
    assert forall i | 0 <= i < |health| :: !health[i].dead && i !in exclude <==> Tier(health, exclude, i) < FAILED;
  }

  /** `b` is the first least-loaded worker of its tier among the first `k`, or there is none. */
  ghost predicate BestOf(loads: seq<nat>, health: seq<Health>, exclude: seq<nat>, tier: nat, k: nat, b: Option<nat>)
    requires |loads| == |health| && k <= |loads|
  {
    match b
    case None => forall i | 0 <= i < k :: Tier(health, exclude, i) != tier
    case Some(w) =>
      && w < k && Tier(health, exclude, w) == tier
      && forall i | 0 <= i < k && Tier(health, exclude, i) == tier ::
           loads[w] < loads[i] || (loads[w] == loads[i] && w <= i)
  }

  /** The first least-loaded worker of the best tier that has any; 0 when every worker is dead. */
  ghost predicate LeastLoaded(loads: seq<nat>, health: seq<Health>, exclude: seq<nat>, r: nat)
    requires |loads| == |health|
  {
    if exists i | 0 <= i < |health| :: !health[i].dead
    then Safe(health, exclude, r) && BestOf(loads, health, exclude, Tier(health, exclude, r), |loads|, Some(r))
    else r == 0
  }

  /** A running best gives way only to a strictly lower load. */
  function Better(loads: seq<nat>, best: Option<nat>, i: nat): Option<nat>
    requires i < |loads| && (best.Some? ==> best.value < |loads|)
  {
    if best.None? || loads[i] < loads[best.value] then Some(i) else best
  }

  lemma BestOfStep(loads: seq<nat>, health: seq<Health>, exclude: seq<nat>, tier: nat, i: nat, b: Option<nat>)
    requires |loads| == |health| && i < |loads| && BestOf(loads, health, exclude, tier, i, b)
    ensures BestOf(loads, health, exclude, tier, i + 1,
                   if Tier(health, exclude, i) == tier then Better(loads, b, i) else b)
  {
  }

  // ----- Probing -----

  predicate Within(i: nat, n: nat) { i < n }

  ghost function Everyone(n: nat): set<nat> { set i | 0 <= i < n && Within(i, n) }

  /** The least-loaded scan asks the live workers that have not failed yet; a lone worker is taken unasked. */
  ghost function ScanProbes(health: seq<Health>, exclude: seq<nat>, upTo: nat): set<nat>
    requires upTo <= |health|
  {
    if |health| == 1 then {} else set i | 0 <= i < upTo && !health[i].dead && i !in exclude
  }

  ghost function Seen(outlier: OutlierState, now: nat): seq<Health>
    reads outlier, outlier.slots
  {
    Snapshot(outlier.cfg, outlier.View(), outlier.slots.Length, now)
  }

  /** Since the fleet was `f`, exactly the slots in `probed` were asked. */
  ghost predicate Asked(outlier: OutlierState, f: Fleet, probed: set<nat>, now: nat)
    reads outlier, outlier.slots
  {
    |f.slots| == outlier.slots.Length && outlier.View() == Probed(outlier.cfg, f, probed, now)
  }

  lemma ProbedFlags(cfg: Config, f: Fleet, probed: set<nat>, i: nat, now: nat)
    requires i < |f.slots|
    ensures var g := Probed(cfg, f, probed, now);
            && |g.slots| == |f.slots| && HealthOf(cfg, g, i, now) == HealthOf(cfg, f, i, now)
            && g.slots[i].dead == f.slots[i].dead && g.slots[i].recycling == f.slots[i].recycling
  {
  }

  lemma ProbeNext(cfg: Config, f: Fleet, probed: set<nat>, i: nat, now: nat)
    requires i < |f.slots|
    ensures var (g, r) := Apply(cfg, Probed(cfg, f, probed, now), IsEjected(i), now);
            g == Probed(cfg, f, probed + {i}, now) && r == HealthOf(cfg, f, i, now).ejected
  {
    var b := Probed(cfg, f, probed, now);
    ProbedOne(cfg, b, i, now);
    ProbedTwice(cfg, f, probed, {i}, now);
    ProbingKeepsSnapshot(cfg, b, i, 0, now);
    ProbedFlags(cfg, f, probed, i, now);
  }

  /** Is worker `i` neither ejected nor dead, recycling or excluded? The first test is a probe. */
  method ProbeUsable(outlier: OutlierState, exclude: seq<nat>, i: nat, now: nat, ghost f: Fleet, ghost probed: set<nat>)
    returns (ok: bool)
    requires i < outlier.slots.Length && Asked(outlier, f, probed, now)
    modifies outlier.slots
    ensures Asked(outlier, f, probed + {i}, now)
    ensures ok <==> Usable(Snapshot(outlier.cfg, f, |f.slots|, now), exclude, i)
  {
    ProbedFlags(outlier.cfg, f, probed, i, now);
    ProbedFlags(outlier.cfg, f, probed + {i}, i, now);
    ProbeNext(outlier.cfg, f, probed, i, now);
    var ejected := outlier.IsEjected(i, now);
    ok := !ejected && !outlier.IsDead(i) && !outlier.IsRecycling(i) && i !in exclude;
  }

  /** Which tier worker `i` is in; only a live one that has not failed yet is probed. */
  method ProbeTier(outlier: OutlierState, exclude: seq<nat>, i: nat, now: nat, ghost f: Fleet, ghost probed: set<nat>)
    returns (tier: nat)
    requires i < outlier.slots.Length && Asked(outlier, f, probed, now)
    modifies outlier.slots
    ensures var health := Snapshot(outlier.cfg, f, |f.slots|, now);
            && tier == Tier(health, exclude, i)
            && Asked(outlier, f, if health[i].dead || i in exclude then probed else probed + {i}, now)
  {
    ProbedFlags(outlier.cfg, f, probed, i, now);
    ProbedFlags(outlier.cfg, f, probed + {i}, i, now);
    if outlier.IsDead(i) {
      return DEAD;
    }
    if i in exclude {
      return FAILED;
    }
    ProbeNext(outlier.cfg, f, probed, i, now);
    var ejected := outlier.IsEjected(i, now);
    tier := if ejected || outlier.IsRecycling(i) then IMPAIRED else ACTIVE;
  }

  lemma ScanProbesStep(health: seq<Health>, exclude: seq<nat>, i: nat)
    requires i < |health| && |health| != 1
    ensures ScanProbes(health, exclude, i + 1) ==
              if health[i].dead || i in exclude then ScanProbes(health, exclude, i)
              else ScanProbes(health, exclude, i) + {i}
  {
  }

  /** A selection that starts after others asked sees the same health, and their probes add up. */
  lemma AskedAgain(cfg: Config, f: Fleet, a: set<nat>, b: set<nat>, now: nat)
    ensures Snapshot(cfg, Probed(cfg, f, a, now), |f.slots|, now) == Snapshot(cfg, f, |f.slots|, now)
    ensures Probed(cfg, Probed(cfg, f, a, now), b, now) == Probed(cfg, f, a + b, now)
    ensures b <= a ==> a + b == a
  {
    ProbedSnapshot(cfg, f, a, |f.slots|, now);
    ProbedTwice(cfg, f, a, b, now);
  }

  // ----- Least loaded -----

  /** The running best of the three tiers after the first `k` workers. */
  datatype Tiers = Tiers(active: Option<nat>, impaired: Option<nat>, failed: Option<nat>)

  ghost predicate TiersOf(loads: seq<nat>, health: seq<Health>, exclude: seq<nat>, k: nat, t: Tiers)
    requires |loads| == |health| && k <= |loads|
  {
    && BestOf(loads, health, exclude, ACTIVE, k, t.active)
    && BestOf(loads, health, exclude, IMPAIRED, k, t.impaired)
    && BestOf(loads, health, exclude, FAILED, k, t.failed)
  }

  function AddWorker(loads: seq<nat>, t: Tiers, tier: nat, i: nat): Tiers
    requires i < |loads|
    requires forall b | b in {t.active, t.impaired, t.failed} && b.Some? :: b.value < |loads|
  {
    if tier == ACTIVE then t.(active := Better(loads, t.active, i))
    else if tier == IMPAIRED then t.(impaired := Better(loads, t.impaired, i))
    else if tier == FAILED then t.(failed := Better(loads, t.failed, i))
    else t
  }

  lemma TiersStep(loads: seq<nat>, health: seq<Health>, exclude: seq<nat>, i: nat, t: Tiers)
    requires |loads| == |health| && i < |loads| && TiersOf(loads, health, exclude, i, t)
    ensures TiersOf(loads, health, exclude, i + 1, AddWorker(loads, t, Tier(health, exclude, i), i))
  {
    BestOfStep(loads, health, exclude, ACTIVE, i, t.active);
    BestOfStep(loads, health, exclude, IMPAIRED, i, t.impaired);
    BestOfStep(loads, health, exclude, FAILED, i, t.failed);
  }

  /** Active first, then ejected or recycling, then already failed. */
  function BestTier(t: Tiers): nat {
    if t.active.Some? then t.active.value
    else if t.impaired.Some? then t.impaired.value
    else if t.failed.Some? then t.failed.value
    else 0
  }

  lemma BestTierLeastLoaded(loads: seq<nat>, health: seq<Health>, exclude: seq<nat>, t: Tiers)
    requires |loads| == |health| && TiersOf(loads, health, exclude, |loads|, t)
    ensures LeastLoaded(loads, health, exclude, BestTier(t))
    ensures |loads| > 0 ==> Safe(health, exclude, BestTier(t))
  {
    assert forall i | 0 <= i < |loads| :: health[i].dead <==> Tier(health, exclude, i) == DEAD;
  }

  lemma LoneWorker(loads: seq<nat>, health: seq<Health>, exclude: seq<nat>)
    requires |loads| == |health| == 1
    ensures LeastLoaded(loads, health, exclude, 0) && Safe(health, exclude, 0)
  {
  }

  method PickLeastLoaded(loads: seq<nat>, outlier: OutlierState, exclude: seq<nat>, now: nat) returns (r: nat)
    requires |loads| == outlier.slots.Length
    modifies outlier.slots
    ensures LeastLoaded(loads, old(Seen(outlier, now)), exclude, r)
    ensures |loads| > 0 ==> Safe(old(Seen(outlier, now)), exclude, r)
    ensures Asked(outlier, old(outlier.View()), ScanProbes(old(Seen(outlier, now)), exclude, |loads|), now)
  {
    ghost var f, health := outlier.View(), Seen(outlier, now);
    ProbedNone(outlier.cfg, f, now);
    if |loads| == 1 {
      LoneWorker(loads, health, exclude);
      return 0;
    }
    var t := Tiers(None, None, None);
    for i := 0 to |loads|
      invariant Asked(outlier, f, ScanProbes(health, exclude, i), now)
      invariant TiersOf(loads, health, exclude, i, t)
    {
      ScanProbesStep(health, exclude, i);
      TiersStep(loads, health, exclude, i, t);
      var tier := ProbeTier(outlier, exclude, i, now, f, ScanProbes(health, exclude, i));
      t := AddWorker(loads, t, tier, i);
    }
    BestTierLeastLoaded(loads, health, exclude, t);
    r := BestTier(t);
  }

  // ----- Affinity -----

  datatype Balance = Balance(absThreshold: nat, relThreshold: real)

  datatype Affinity = Affinity(key: string, preferred: Option<nat>)

  predicate Alternative(health: seq<Health>, exclude: seq<nat>, w: nat, i: nat) { i != w && Usable(health, exclude, i) }

  ghost predicate BeyondAbs(loads: seq<nat>, health: seq<Health>, exclude: seq<nat>, w: nat, balance: Balance)
    requires |loads| == |health| && w < |loads|
  {
    balance.absThreshold > 0 &&
    exists i | 0 <= i < |loads| && Alternative(health, exclude, w, i) :: loads[w] > loads[i] + balance.absThreshold
  }

  ghost predicate BeyondRel(loads: seq<nat>, health: seq<Health>, exclude: seq<nat>, w: nat, balance: Balance)
    requires |loads| == |health| && w < |loads|
  {
    && balance.relThreshold > 0.0
    && (forall i | 0 <= i < |loads| && Alternative(health, exclude, w, i) :: loads[i] > 0)
    && exists i | 0 <= i < |loads| && Alternative(health, exclude, w, i) ::
         loads[w] as real > loads[i] as real * balance.relThreshold
  }

  lemma RelativeLimitMonotone(a: nat, b: nat, factor: real)
    requires a <= b && factor > 0.0
    ensures a as real * factor <= b as real * factor
  {
    assert b as real * factor - a as real * factor == (b - a) as real * factor;
  }

  ghost predicate Overloaded(loads: seq<nat>, health: seq<Health>, exclude: seq<nat>, w: nat, balance: Balance)
    requires |loads| == |health| && w < |loads|
  {
    BeyondAbs(loads, health, exclude, w, balance) || BeyondRel(loads, health, exclude, w, balance)
  }

  /** The least-loaded usable worker other than `w` among the first `k`. */
  ghost predicate IsLeast(loads: seq<nat>, health: seq<Health>, exclude: seq<nat>, w: nat, k: nat, least: Option<nat>)
    requires |loads| == |health| && k <= |loads|
  {
    match least
    case None => forall j | 0 <= j < k :: !Alternative(health, exclude, w, j)
    case Some(m) =>
      && m < k && Alternative(health, exclude, w, m)
      && forall j | 0 <= j < k && Alternative(health, exclude, w, j) :: loads[m] <= loads[j]
  }

  method LeastAlternative(loads: seq<nat>, outlier: OutlierState, exclude: seq<nat>, w: nat, now: nat)
    returns (least: Option<nat>)
    requires |loads| == outlier.slots.Length && w < |loads|
    modifies outlier.slots
    ensures IsLeast(loads, old(Seen(outlier, now)), exclude, w, |loads|, least)
    ensures Asked(outlier, old(outlier.View()), Everyone(|loads|) - {w}, now)
  {
    ghost var f, health := outlier.View(), Seen(outlier, now);
    ProbedNone(outlier.cfg, f, now);
    assert Everyone(0) - {w} == {};
    least := None;
    for i := 0 to |loads|
      invariant Asked(outlier, f, Everyone(i) - {w}, now)
      invariant IsLeast(loads, health, exclude, w, i, least)
    {
      if i == w {
        assert Everyone(i + 1) - {w} == Everyone(i) - {w};
        continue;
      }
      assert Everyone(i + 1) - {w} == Everyone(i) - {w} + {i};
      var usable := ProbeUsable(outlier, exclude, i, now, f, Everyone(i) - {w});
      if usable && (least.None? || loads[i] < loads[least.value]) {
        least := Some(i);
      }
    }
  }

  /** Decides on the lightest alternative alone. */
  method BeyondThresholds(loads: seq<nat>, w: nat, least: nat, balance: Balance, ghost health: seq<Health>,
                          ghost exclude: seq<nat>)
    returns (over: bool)
    requires |loads| == |health| && w < |loads| && IsLeast(loads, health, exclude, w, |loads|, Some(least))
    ensures over <==> Overloaded(loads, health, exclude, w, balance)
  {
    var min := loads[least];
    if balance.absThreshold > 0 && loads[w] > min + balance.absThreshold {
      return true;
    }
    if balance.relThreshold > 0.0 && min > 0 {
      forall j | 0 <= j < |loads| && Alternative(health, exclude, w, j)
        ensures min as real * balance.relThreshold <= loads[j] as real * balance.relThreshold
      {
        RelativeLimitMonotone(min, loads[j], balance.relThreshold);
      }
      if loads[w] as real > min as real * balance.relThreshold {
        return true;
      }
    }
    return false;
  }

  /** Whether the affinity worker is loaded beyond either threshold over some usable alternative. */
  method AffinityOverloaded(loads: seq<nat>, outlier: OutlierState, exclude: seq<nat>, w: nat, balance: Balance,
                            now: nat)
    returns (over: bool)
    requires |loads| == outlier.slots.Length && w < |loads|
    modifies outlier.slots
    ensures over <==> Overloaded(loads, old(Seen(outlier, now)), exclude, w, balance)
    ensures Asked(outlier, old(outlier.View()), Everyone(|loads|) - {w}, now)
  {
    ghost var health := Seen(outlier, now);
    var least := LeastAlternative(loads, outlier, exclude, w, now);
    if least.None? {
      return false;
    }
    over := BeyondThresholds(loads, w, least.value, balance, health, exclude);
  }

  function LiveWorkers(health: seq<Health>, exclude: seq<nat>, n: nat): (live: seq<nat>)
    requires n <= |health|
    ensures forall i :: i in live <==> 0 <= i < n && Usable(health, exclude, i)
    ensures forall j, k | 0 <= j < k < |live| :: live[j] < live[k]
  {
    if n == 0 then []
    else
      var rest := LiveWorkers(health, exclude, n - 1);
      assert forall k | 0 <= k < |rest| :: rest[k] in rest;
      if Usable(health, exclude, n - 1) then rest + [n - 1] else rest
  }

  method CollectLive(outlier: OutlierState, exclude: seq<nat>, now: nat) returns (live: seq<nat>)
    modifies outlier.slots
    ensures live == LiveWorkers(old(Seen(outlier, now)), exclude, outlier.slots.Length)
    ensures Asked(outlier, old(outlier.View()), Everyone(outlier.slots.Length), now)
  {
    ghost var f, health := outlier.View(), Seen(outlier, now);
    ProbedNone(outlier.cfg, f, now);
    assert Everyone(0) == {};
    live := [];
    for i := 0 to outlier.slots.Length
      invariant Asked(outlier, f, Everyone(i), now)
      invariant live == LiveWorkers(health, exclude, i)
    {
      assert Everyone(i + 1) == Everyone(i) + {i};
      var usable := ProbeUsable(outlier, exclude, i, now, f, Everyone(i));
      if usable {
        live := live + [i];
      }
    }
  }

  /** A usable worker no more loaded than another usable one; the least-loaded pick when there are not two. */
  ghost predicate LighterOfTwo(loads: seq<nat>, health: seq<Health>, exclude: seq<nat>, r: nat)
    requires |loads| == |health|
  {
    var live := UsableSet(health, exclude);
    if exists i, j :: i in live && j in live && i != j
    then r in live && exists j :: j in live && j != r && loads[r] <= loads[j]
    else LeastLoaded(loads, health, exclude, r)
  }

  /** The lighter of two distinct members drawn at random. */
  method DrawTwo(loads: seq<nat>, live: seq<nat>) returns (r: nat)
    requires |live| >= 2 && (forall i | i in live :: i < |loads|) && live[0] != live[1]
    ensures r in live && exists j :: j in live && j != r && loads[r] <= loads[j]
  {
    assert live[0] in live && live[1] in live;
    var a :| a in live;
    assert exists b :: b in live && b != a by {
      assert live[0] != a || live[1] != a;
    }
    var b :| b in live && b != a;
    r := if loads[a] <= loads[b] then a else b;
  }

  lemma LiveIsUsable(health: seq<Health>, exclude: seq<nat>)
    ensures var live, usable := LiveWorkers(health, exclude, |health|), UsableSet(health, exclude);
            && (forall i :: i in live <==> i in usable)
            && (|live| >= 2 ==> live[0] != live[1] && live[0] in usable && live[1] in usable)
            && (|live| < 2 ==> forall i, j | i in usable && j in usable :: i == j)
  {
    var live, usable := LiveWorkers(health, exclude, |health|), UsableSet(health, exclude);
    assert forall i :: i in live <==> i in usable;
    if |live| >= 2 {
      assert live[0] in live && live[1] in live;
    }
  }

  lemma UsableIsSafe(health: seq<Health>, exclude: seq<nat>, r: nat)
    requires Usable(health, exclude, r)
    ensures Safe(health, exclude, r)
  {
  }

  /** Two distinct usable workers drawn at random: the less loaded one; least-loaded when there are not two. */
  method PowerOfTwoPick(loads: seq<nat>, outlier: OutlierState, exclude: seq<nat>, now: nat) returns (r: nat)
    requires |loads| == outlier.slots.Length > 0
    modifies outlier.slots
    ensures Safe(old(Seen(outlier, now)), exclude, r)
    ensures LighterOfTwo(loads, old(Seen(outlier, now)), exclude, r)
    ensures Asked(outlier, old(outlier.View()), Everyone(|loads|), now)
  {
    ghost var f, health := outlier.View(), Seen(outlier, now);
    var live := CollectLive(outlier, exclude, now);
    LiveIsUsable(health, exclude);
    if |live| < 2 {
      AskedAgain(outlier.cfg, f, Everyone(|loads|), ScanProbes(health, exclude, |loads|), now);
      r := PickLeastLoaded(loads, outlier, exclude, now);
      return;
    }
    r := DrawTwo(loads, live);
    UsableIsSafe(health, exclude, r);
  }

  /** The usable worker with the highest hash among the first `k`. */
  ghost predicate HighestHash(h: Hash, key: string, health: seq<Health>, exclude: seq<nat>, k: nat, r: Option<nat>) {
    match r
    case None => forall j | 0 <= j < k :: !Usable(health, exclude, j)
    case Some(m) =>
      && m < k && Usable(health, exclude, m)
      && forall j | 0 <= j < k && Usable(health, exclude, j) && j != m :: Beats(h, key, m, j)
  }

  lemma HighestHashIsChoice(h: Hash, key: string, health: seq<Health>, exclude: seq<nat>, r: Option<nat>)
    requires HighestHash(h, key, health, exclude, |health|, r)
    ensures r.None? <==> UsableSet(health, exclude) == {}
    ensures r.Some? ==> r.value == Choice(h, key, UsableSet(health, exclude))
  {
    if r.Some? {
      assert r.value in UsableSet(health, exclude);
      assert IsChoice(h, key, UsableSet(health, exclude), r.value);
    }
  }

  method RendezvousPick(key: string, h: Hash, outlier: OutlierState, exclude: seq<nat>, now: nat)
    returns (r: Option<nat>)
    modifies outlier.slots
    ensures r.None? <==> UsableSet(old(Seen(outlier, now)), exclude) == {}
    ensures r.Some? ==> r.value == Choice(h, key, UsableSet(old(Seen(outlier, now)), exclude))
    ensures Asked(outlier, old(outlier.View()), Everyone(outlier.slots.Length), now)
  {
    ghost var f, health := outlier.View(), Seen(outlier, now);
    ProbedNone(outlier.cfg, f, now);
    assert Everyone(0) == {};
    r := None;
    for i := 0 to outlier.slots.Length
      invariant Asked(outlier, f, Everyone(i), now)
      invariant HighestHash(h, key, health, exclude, i, r)
    {
      assert Everyone(i + 1) == Everyone(i) + {i};
      var usable := ProbeUsable(outlier, exclude, i, now, f, Everyone(i));
      if usable && (r.None? || h(key, i) > h(key, r.value)) {
        r := Some(i);
      }
    }
    HighestHashIsChoice(h, key, health, exclude, r);
  }

  /** Without affinity the least-loaded pick. With it the preferred worker while usable, or the lighter of two when that
      one is overloaded; without a usable preferred worker the rendezvous choice, and least-loaded when none is
      usable. */
  ghost predicate Picked(loads: seq<nat>, health: seq<Health>, exclude: seq<nat>, affinity: Option<Affinity>,
                         balance: Balance, h: Hash, r: nat)
    requires |loads| == |health| > 0
  {
    if affinity.None? then LeastLoaded(loads, health, exclude, r)
    else if |loads| == 1 then r == 0
    else
      var preferred, usable := affinity.value.preferred, UsableSet(health, exclude);
      if preferred.Some? && Usable(health, exclude, preferred.value) then
        if Overloaded(loads, health, exclude, preferred.value, balance) then LighterOfTwo(loads, health, exclude, r)
        else r == preferred.value
      else if usable != {} then r == Choice(h, affinity.value.key, usable)
      else LeastLoaded(loads, health, exclude, r)
  }

  /** With a routing key every worker of a larger fleet is probed, whichever branch decides. */
  ghost function PickProbes(health: seq<Health>, exclude: seq<nat>, keyed: bool): set<nat> {
    if !keyed then ScanProbes(health, exclude, |health|) else if |health| <= 1 then {} else Everyone(|health|)
  }

  /** The selection when the preferred worker, just asked, is usable. */
  method PickPreferred(loads: seq<nat>, outlier: OutlierState, exclude: seq<nat>, w: nat, balance: Balance, now: nat,
                       ghost f: Fleet) returns (r: nat)
    requires |loads| == outlier.slots.Length > 1 && w < |loads| && Asked(outlier, f, {w}, now)
    requires Usable(Snapshot(outlier.cfg, f, |f.slots|, now), exclude, w)
    modifies outlier.slots
    ensures var health := Snapshot(outlier.cfg, f, |f.slots|, now);
            && Safe(health, exclude, r)
            && if Overloaded(loads, health, exclude, w, balance) then LighterOfTwo(loads, health, exclude, r)
               else r == w
    ensures Asked(outlier, f, Everyone(|loads|), now)
  {
    ghost var all := Everyone(|loads|);
    assert {w} + (all - {w}) == all;
    AskedAgain(outlier.cfg, f, {w}, all - {w}, now);
    var over := AffinityOverloaded(loads, outlier, exclude, w, balance, now);
    if over {
      AskedAgain(outlier.cfg, f, all, all, now);
      r := PowerOfTwoPick(loads, outlier, exclude, now);
    } else {
      r := w;
    }
  }

  /** The selection without a usable preferred worker. */
  method PickByHash(loads: seq<nat>, outlier: OutlierState, exclude: seq<nat>, key: string, h: Hash, now: nat)
    returns (r: nat)
    requires |loads| == outlier.slots.Length > 1
    modifies outlier.slots
    ensures Safe(old(Seen(outlier, now)), exclude, r)
    ensures var health := old(Seen(outlier, now));
            var usable := UsableSet(health, exclude);
            if usable != {} then r == Choice(h, key, usable) else LeastLoaded(loads, health, exclude, r)
    ensures Asked(outlier, old(outlier.View()), Everyone(|loads|), now)
  {
    ghost var f, health := outlier.View(), Seen(outlier, now);
    var c := RendezvousPick(key, h, outlier, exclude, now);
    if c.Some? {
      assert c.value in UsableSet(health, exclude);
      r := c.value;
    } else {
      AskedAgain(outlier.cfg, f, Everyone(|loads|), ScanProbes(health, exclude, |loads|), now);
      r := PickLeastLoaded(loads, outlier, exclude, now);
    }
  }

  method PickWorker(loads: seq<nat>, outlier: OutlierState, exclude: seq<nat>, affinity: Option<Affinity>,
                    balance: Balance, h: Hash, now: nat) returns (r: nat)
    requires |loads| == outlier.slots.Length > 0
    modifies outlier.slots
    ensures Safe(old(Seen(outlier, now)), exclude, r)
    ensures Picked(loads, old(Seen(outlier, now)), exclude, affinity, balance, h, r)
    ensures Asked(outlier, old(outlier.View()), PickProbes(old(Seen(outlier, now)), exclude, affinity.Some?), now)
  {
    ghost var f, health, all := outlier.View(), Seen(outlier, now), Everyone(|loads|);
    if affinity.None? {
      r := PickLeastLoaded(loads, outlier, exclude, now);
      return;
    }
    ProbedNone(outlier.cfg, f, now);
    if |loads| <= 1 {
      LoneWorker(loads, health, exclude);
      return 0;
    }
    var preferred := affinity.value.preferred;
    if preferred.Some? && preferred.value < |loads| {
      var w := preferred.value;
      var usable := ProbeUsable(outlier, exclude, w, now, f, {});
      assert {} + {w} == {w} && {w} + all == all;
      if usable {
        r := PickPreferred(loads, outlier, exclude, w, balance, now, f);
        return;
      }
      AskedAgain(outlier.cfg, f, {w}, all, now);
    }
    r := PickByHash(loads, outlier, exclude, affinity.value.key, h, now);
  }

  // ----- Hints carried by a batch -----

  /** The pin every pin-carrying item agrees on; items without a pin do not vote. */
  function BatchDirectPin(pins: seq<Option<nat>>): (r: Option<nat>)
    ensures r.Some? ==> r in pins
    ensures forall w :: r == Some(w) <==> Some(w) in pins && forall p | p in pins :: p.None? || p == Some(w)
  {
    if pins == [] then None
    else
      var rest := BatchDirectPin(pins[1..]);
      assert forall p :: p in pins <==> p == pins[0] || p in pins[1..];
      if pins[0].None? then rest
      else if forall k | 1 <= k < |pins| :: pins[k].None? || pins[k] == pins[0] then pins[0]
      else None
  }

  /** The routing keys of one item: its sequence id and its affinity header, empty strings meaning absent. */
  datatype Keys = Keys(sequence: Option<string>, affinity: Option<string>)

  function Present(s: Option<string>): Option<string> { if s == Some("") then None else s }

  /** The sequence id when there is one, else the affinity header. */
  function RoutingKey(k: Keys): (r: Option<string>)
    ensures r.None? <==> k.sequence in {None, Some("")} && k.affinity in {None, Some("")}
    ensures r.Some? && k.sequence !in {None, Some("")} ==> r == k.sequence
    ensures r.Some? && k.sequence in {None, Some("")} ==> r == k.affinity
  {
    if Present(k.sequence).Some? then Present(k.sequence) else Present(k.affinity)
  }

  /** The worker the registry remembers for the item's sequence id. */
  function Hit(registry: map<string, nat>, k: Keys): (r: Option<nat>)
    ensures forall w :: r == Some(w) <==>
              && k.sequence.Some? && k.sequence.value != ""
              && k.sequence.value in registry && registry[k.sequence.value] == w
  {
    var s := Present(k.sequence);
    if s.Some? && s.value in registry then Some(registry[s.value]) else None
  }

  /** The first routing key of the batch, and the worker on which all registry hits agree. */
  ghost predicate IsAffinity(batch: seq<Keys>, registry: map<string, nat>, r: Option<Affinity>) {
    && (r.None? <==> forall k | k in batch :: RoutingKey(k).None?)
    && (r.Some? ==> exists j | 0 <= j < |batch| ::
          RoutingKey(batch[j]) == Some(r.value.key) && forall i | 0 <= i < j :: RoutingKey(batch[i]).None?)
    && (r.Some? ==> forall w :: r.value.preferred == Some(w) <==>
          && (exists k | k in batch :: Hit(registry, k) == Some(w))
          && (forall k | k in batch :: Hit(registry, k).None? || Hit(registry, k) == Some(w)))
  }

  method BatchAffinity(batch: seq<Keys>, registry: map<string, nat>) returns (r: Option<Affinity>)
    ensures IsAffinity(batch, registry, r)
  {
    var first: Option<string>, agreed: Option<nat>, disagree := None, None, false;
    for i := 0 to |batch|
      invariant first.None? <==> forall k | k in batch[..i] :: RoutingKey(k).None?
      invariant first.Some? ==>
                  exists j | 0 <= j < i ::
                    RoutingKey(batch[j]) == first && forall m | 0 <= m < j :: RoutingKey(batch[m]).None?
      invariant agreed.None? ==> !disagree && forall k | k in batch[..i] :: Hit(registry, k).None?
      invariant agreed.Some? ==> exists k | k in batch[..i] :: Hit(registry, k) == agreed
      invariant !disagree ==> forall k | k in batch[..i] :: Hit(registry, k).None? || Hit(registry, k) == agreed
      invariant disagree ==> exists k | k in batch[..i] :: Hit(registry, k).Some? && Hit(registry, k) != agreed
    {
      assert batch[..i + 1] == batch[..i] + [batch[i]];
      var key := RoutingKey(batch[i]);
      if key.None? {
        continue;
      }
      if first.None? {
        first := key;
      }
      var hit := Hit(registry, batch[i]);
      if hit.Some? {
        if agreed.None? {
          agreed := hit;
        } else if agreed != hit {
          disagree := true;
        }
      }
    }
    assert batch[..|batch|] == batch;
    if first.None? {
      return None;
    }
    r := Some(Affinity(first.value, if disagree then None else agreed));
  }

  /** Some item is pinned to `w` and none to another worker. */
  ghost predicate AgreedPin(pins: seq<Option<nat>>, w: nat) {
    Some(w) in pins && forall p | p in pins :: p.None? || p == Some(w)
  }

  /** The batch's pin while that worker is usable, else the ordinary selection. */
  ghost predicate Chosen(loads: seq<nat>, health: seq<Health>, exclude: seq<nat>, pins: seq<Option<nat>>,
                         affinity: Option<Affinity>, balance: Balance, h: Hash, r: nat)
    requires |loads| == |health| > 0
  {
    if exists w: nat :: AgreedPin(pins, w) && Usable(health, exclude, w)
    then AgreedPin(pins, r)
    else Picked(loads, health, exclude, affinity, balance, h, r)
  }

  /** The pinned worker is asked first; the others only when it cannot be used. */
  ghost function ChooseProbes(health: seq<Health>, exclude: seq<nat>, pins: seq<Option<nat>>, keyed: bool): set<nat> {
    var pin := BatchDirectPin(pins);
    if pin.Some? && pin.value < |health| then
      if Usable(health, exclude, pin.value) then {pin.value} else {pin.value} + PickProbes(health, exclude, keyed)
    else PickProbes(health, exclude, keyed)
  }

  /** The worker one dispatch attempt goes to. */
  method ChooseWorker(loads: seq<nat>, outlier: OutlierState, exclude: seq<nat>, pins: seq<Option<nat>>,
                      affinity: Option<Affinity>, balance: Balance, h: Hash, now: nat) returns (r: nat)
    requires |loads| == outlier.slots.Length > 0
    modifies outlier.slots
    ensures Safe(old(Seen(outlier, now)), exclude, r)
    ensures Chosen(loads, old(Seen(outlier, now)), exclude, pins, affinity, balance, h, r)
    ensures Asked(outlier, old(outlier.View()),
                  ChooseProbes(old(Seen(outlier, now)), exclude, pins, affinity.Some?), now)
  {
    ghost var f, health := outlier.View(), Seen(outlier, now);
    var pin := BatchDirectPin(pins);
    assert forall w: nat :: pin == Some(w) <==> AgreedPin(pins, w);
    if pin.Some? && pin.value < |loads| {
      ProbedNone(outlier.cfg, f, now);
      var usable := ProbeUsable(outlier, exclude, pin.value, now, f, {});
      assert {} + {pin.value} == {pin.value};
      if usable {
        return pin.value;
      }
      AskedAgain(outlier.cfg, f, {pin.value}, PickProbes(health, exclude, affinity.Some?), now);
    }
    r := PickWorker(loads, outlier, exclude, affinity, balance, h, now);
  }

  /** Whether the selection asked about the worker it returned: when it is the batch's pin, or in a larger fleet
      unless it is an already failed worker taken as a last resort without a routing key. */
  lemma AskedIsProbed(health: seq<Health>, exclude: seq<nat>, pins: seq<Option<nat>>, keyed: bool, r: nat)
    requires Safe(health, exclude, r) && !health[r].dead
    requires forall w: nat | AgreedPin(pins, w) && Usable(health, exclude, w) :: r == w
    ensures r in ChooseProbes(health, exclude, pins, keyed) <==>
              AgreedPin(pins, r) || (|health| > 1 && (keyed || r !in exclude))
  {
    var pin := BatchDirectPin(pins);
    assert forall w: nat :: pin == Some(w) <==> AgreedPin(pins, w);
  }
}
