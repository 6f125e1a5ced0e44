/** Resolving the `devices` setting of a model into a worker-to-device table. */
module DevicePlan {
  import opened Common

  /** A JSON value; a number carries its value when it is an unsigned 64-bit integer. */
  datatype Value =
    | Null
    | Bool(b: bool)
    | Number(u64: Option<nat>)
    | Str(s: string)
    | Array(items: seq<Value>)
    | Object(entries: seq<Entry>)

  /** One key of a map with its value; the key text is read as a device index by `parse`. */
  datatype Entry = Entry(key: string, value: Value)

  datatype Config = Config(devices: Option<Value>, workersPerDevice: Option<nat>, continuousBatching: bool)

  datatype PlanError =
    | ZeroWorkers | BadNumber | BadString | EmptyList | BadListEntry | DuplicateDevice
    | EmptyMap | MapWithWorkers | BadKey | BadCount | Unsupported

  type Parse = string -> Option<nat>

  function AsU64(v: Value): Option<nat> { if v.Number? then v.u64 else None }

  /** One worker per device unless set. */
  function WorkersPerDevice(cfg: Config): (w: nat)
    ensures cfg.workersPerDevice in {None, Some(1)} <==> w == 1
    ensures cfg.workersPerDevice.Some? ==> w == cfg.workersPerDevice.value
  {
    if cfg.workersPerDevice.Some? then cfg.workersPerDevice.value else 1
  }

  function Count(p: seq<nat>, d: nat): nat { multiset(p)[d] }

  lemma SameCounts(p: seq<nat>, q: seq<nat>)
    requires forall d: nat :: Count(p, d) == Count(q, d)
    ensures multiset(p) == multiset(q)
  {
    var a: multiset<nat>, b: multiset<nat> := multiset(p), multiset(q);
    forall d: nat ensures a[d] == b[d] {
      assert Count(p, d) == Count(q, d);
    }
    assert a == b;
  }

  // ----- Round robin -----

  function RoundRobin(devices: seq<nat>, w: nat): seq<nat> {
    if w == 0 then [] else devices + RoundRobin(devices, w - 1)
  }

  lemma ModPlus(i: nat, n: nat)
    requires n > 0 && i >= n
    ensures i % n == (i - n) % n
  {
    assert i == n * (i / n) + i % n;
    assert i - n == n * (i / n - 1) + i % n;
    ModUnique(i - n, n, i / n - 1, i % n);
  }

  lemma MultipleBeyond(n: nat, d: int)
    ensures d >= 1 ==> n * d >= n
    ensures d <= -1 ==> n * d <= 0 - n
  {
    if d >= 1 {
      assert n * d == n + n * (d - 1);
    } else if d <= -1 {
      assert n * d == n * (d + 1) - n;
    }
  }

  lemma ModUnique(x: int, n: nat, q: int, r: int)
    requires n > 0 && x == n * q + r && 0 <= r < n
    ensures x % n == r
  {
    var d := x / n - q;
    assert n * d == r - x % n;
    MultipleBeyond(n, d);
    assert d == 0;
  }

  /** The table repeats the devices in order, which is the modulo rule. */
  lemma {:induction false} RoundRobinAt(devices: seq<nat>, w: nat)
    ensures |RoundRobin(devices, w)| == |devices| * w
    ensures forall i | 0 <= i < |RoundRobin(devices, w)| ::
              |devices| > 0 && RoundRobin(devices, w)[i] == devices[i % |devices|]
    ensures forall d: nat :: Count(RoundRobin(devices, w), d) == Count(devices, d) * w
  {
    if w > 0 {
      RoundRobinAt(devices, w - 1);
      var rest := RoundRobin(devices, w - 1);
      assert |devices| * w == |devices| * (w - 1) + |devices|;
      forall i | 0 <= i < |devices| + |rest| ensures (devices + rest)[i] == devices[i % |devices|] {
        if i < |devices| {
          ModUnique(i, |devices|, 0, i);
        } else {
          ModPlus(i, |devices|);
        }
      }
      forall d: nat ensures Count(devices + rest, d) == Count(devices, d) * w {
        assert Count(devices, d) * w == Count(devices, d) * (w - 1) + Count(devices, d);
      }
    }
  }

  function Iota(n: nat): (s: seq<nat>)
    ensures |s| == n && forall i | 0 <= i < n :: s[i] == i
  {
    seq(n, i => i)
  }

  // ----- List form -----

  ghost predicate ListAccepted(items: seq<Value>) {
    && (forall i | 0 <= i < |items| :: AsU64(items[i]).Some?)
    && (forall i, j | 0 <= i < j < |items| :: AsU64(items[i]) != AsU64(items[j]))
  }

  method ParseList(items: seq<Value>) returns (r: Result<seq<nat>, PlanError>)
    ensures r.Success? <==> ListAccepted(items)
    ensures r.Success? ==> |r.value| == |items| && forall i | 0 <= i < |items| :: Some(r.value[i]) == AsU64(items[i])
  {
    var devices: seq<nat> := [];
    for k := 0 to |items|
      invariant |devices| == k && forall i | 0 <= i < k :: Some(devices[i]) == AsU64(items[i])
      invariant forall i, j | 0 <= i < j < k :: AsU64(items[i]) != AsU64(items[j])
    {
      var d := AsU64(items[k]);
      if d.None? {
        return Failure(BadListEntry);
      }
      if d.value in devices {
        return Failure(DuplicateDevice);
      }
      devices := devices + [d.value];
    }
    return Success(devices);
  }

  // ----- Map form -----

  datatype Share = Share(device: nat, count: nat)

  predicate EntryAccepted(parse: Parse, e: Entry) {
    parse(e.key).Some? && AsU64(e.value).Some? && AsU64(e.value).value >= 1
  }

  function ShareOf(parse: Parse, e: Entry): Share
    requires EntryAccepted(parse, e)
  {
    Share(parse(e.key).value, AsU64(e.value).value)
  }

  method ParseMap(parse: Parse, entries: seq<Entry>) returns (r: Result<seq<Share>, PlanError>)
    ensures r.Success? <==> forall i | 0 <= i < |entries| :: EntryAccepted(parse, entries[i])
    ensures r.Success? ==>
              |r.value| == |entries| && forall i | 0 <= i < |entries| :: r.value[i] == ShareOf(parse, entries[i])
  {
    var slots: seq<Share> := [];
    for k := 0 to |entries|
      invariant |slots| == k
      invariant forall i | 0 <= i < k :: EntryAccepted(parse, entries[i]) && slots[i] == ShareOf(parse, entries[i])
    {
      var d := parse(entries[k].key);
      if d.None? {
        return Failure(BadKey);
      }
      var c := AsU64(entries[k].value);
      if c.None? || c.value < 1 {
        return Failure(BadCount);
      }
      slots := slots + [Share(d.value, c.value)];
    }
    return Success(slots);
  }

  ghost predicate SortedShares(slots: seq<Share>) {
    forall i, j | 0 <= i < j < |slots| :: slots[i].device <= slots[j].device
  }

  ghost predicate Ascending(p: seq<nat>) { forall i, j | 0 <= i < j < |p| :: p[i] <= p[j] }

  function Insert(s: Share, sorted: seq<Share>): (r: seq<Share>)
    requires SortedShares(sorted)
    ensures SortedShares(r) && multiset(r) == multiset(sorted) + multiset{s}
  {
    if sorted == [] || s.device <= sorted[0].device then [s] + sorted
    else
      var t := Insert(s, sorted[1..]);
      InsertedBelow(s, sorted, t);
      [sorted[0]] + t
  }

  lemma InsertedBelow(s: Share, sorted: seq<Share>, t: seq<Share>)
    requires SortedShares(sorted) && sorted != [] && sorted[0].device < s.device
    requires SortedShares(t) && multiset(t) == multiset(sorted[1..]) + multiset{s}
    ensures SortedShares([sorted[0]] + t) && multiset([sorted[0]] + t) == multiset(sorted) + multiset{s}
  {
    assert sorted == [sorted[0]] + sorted[1..];
    forall i | 0 <= i < |t| ensures sorted[0].device <= t[i].device {
      assert t[i] in multiset(t);
      assert t[i] == s || t[i] in sorted[1..];
    }
  }

  /** One of the orders an unstable sort by device may produce; `SortOrderIrrelevant` covers the others. */
  function SortShares(slots: seq<Share>): (r: seq<Share>)
    ensures SortedShares(r) && multiset(r) == multiset(slots)
  {
    if slots == [] then []
    else
      assert slots == [slots[0]] + slots[1..];
      Insert(slots[0], SortShares(slots[1..]))
  }

  function Expand(slots: seq<Share>): seq<nat> {
    if slots == [] then [] else seq(slots[0].count, _ => slots[0].device) + Expand(slots[1..])
  }

  /** The workers a list of shares gives device `d`. */
  function WorkersFor(slots: seq<Share>, d: nat): nat {
    if slots == [] then 0 else (if slots[0].device == d then slots[0].count else 0) + WorkersFor(slots[1..], d)
  }

  lemma {:induction false} RepeatCount(c: nat, x: nat, d: nat)
    ensures Count(seq(c, _ => x), d) == if x == d then c else 0
  {
    if c > 0 {
      RepeatCount(c - 1, x, d);
      assert seq(c, _ => x) == seq(c - 1, _ => x) + [x];
    }
  }

  lemma {:induction false} ExpandCounts(slots: seq<Share>, d: nat)
    ensures Count(Expand(slots), d) == WorkersFor(slots, d)
  {
    if slots != [] {
      ExpandCounts(slots[1..], d);
      RepeatCount(slots[0].count, slots[0].device, d);
    }
  }

  lemma {:induction false} ExpandMembers(slots: seq<Share>, x: nat)
    requires x in Expand(slots)
    ensures exists i | 0 <= i < |slots| :: slots[i].device == x
  {
    if x in seq(slots[0].count, _ => slots[0].device) {
      assert slots[0].device == x;
    } else {
      ExpandMembers(slots[1..], x);
      var i :| 0 <= i < |slots[1..]| && slots[1..][i].device == x;
      assert slots[i + 1].device == x;
    }
  }

  lemma {:induction false} ExpandAscends(slots: seq<Share>)
    requires SortedShares(slots)
    ensures Ascending(Expand(slots))
  {
    if slots != [] {
      ExpandAscends(slots[1..]);
      var head, tail := seq(slots[0].count, _ => slots[0].device), Expand(slots[1..]);
      forall j | 0 <= j < |tail| ensures slots[0].device <= tail[j] {
        ExpandMembers(slots[1..], tail[j]);
      }
    }
  }

  lemma {:induction false} WorkersForRemove(slots: seq<Share>, k: nat, d: nat)
    requires k < |slots|
    ensures WorkersFor(slots, d) ==
              WorkersFor(slots[..k] + slots[k + 1..], d) + if slots[k].device == d then slots[k].count else 0
  {
    if k == 0 {
      assert slots[..0] + slots[1..] == slots[1..];
    } else {
      WorkersForRemove(slots[1..], k - 1, d);
      var rest := slots[..k] + slots[k + 1..];
      assert rest[1..] == slots[1..][..k - 1] + slots[1..][k..];
    }
  }

  lemma {:induction false} WorkersForPermuted(a: seq<Share>, b: seq<Share>, d: nat)
    requires multiset(a) == multiset(b)
    ensures WorkersFor(a, d) == WorkersFor(b, d)
    decreases |a|
  {
    assert |a| == |multiset(a)| && |b| == |multiset(b)|;
    if a != [] {
      assert a[0] in multiset(b);
      var k :| 0 <= k < |b| && b[k] == a[0];
      var rest := b[..k] + b[k + 1..];
      assert b == b[..k] + [b[k]] + b[k + 1..];
      assert a == [a[0]] + a[1..];
      assert multiset(a) == multiset{a[0]} + multiset(a[1..]);
      assert multiset(b) == multiset{b[k]} + multiset(rest);
      MultisetCancel(a[0], multiset(a[1..]), multiset(rest));
      WorkersForPermuted(a[1..], rest, d);
      WorkersForRemove(b, k, d);
    }
  }

  /** An ascending table is determined by how often each device occurs. */
  lemma {:induction false} AscendingUnique(p: seq<nat>, q: seq<nat>)
    requires Ascending(p) && Ascending(q) && multiset(p) == multiset(q)
    ensures p == q
    decreases |p|
  {
    assert |p| == |multiset(p)| == |multiset(q)| == |q|;
    if p != [] {
      assert p[0] in multiset(q) && q[0] in multiset(p);
      assert p[0] in q && q[0] in p;
      assert p[0] == q[0];
      assert p == [p[0]] + p[1..] && q == [q[0]] + q[1..];
      assert multiset(p) == multiset{p[0]} + multiset(p[1..]);
      assert multiset(q) == multiset{q[0]} + multiset(q[1..]);
      MultisetCancel(p[0], multiset(p[1..]), multiset(q[1..]));
      AscendingUnique(p[1..], q[1..]);
    }
  }

  /** Keys naming the same device may be sorted in any order: the table is the same. */
  lemma SortOrderIrrelevant(slots: seq<Share>, sorted: seq<Share>)
    requires SortedShares(sorted) && multiset(sorted) == multiset(slots)
    ensures Expand(sorted) == Expand(SortShares(slots))
  {
    var p, q := Expand(sorted), Expand(SortShares(slots));
    ExpandAscends(sorted);
    ExpandAscends(SortShares(slots));
    forall d: nat ensures Count(p, d) == Count(q, d) {
      ExpandCounts(sorted, d);
      ExpandCounts(SortShares(slots), d);
      WorkersForPermuted(sorted, SortShares(slots), d);
    }
    SameCounts(p, q);
    AscendingUnique(p, q);
  }

  // ----- One worker per device -----

  ghost predicate FirstSeen(plan: seq<nat>, i: nat)
    requires i < |plan|
  {
    plan[i] !in plan[..i]
  }

  /** The distinct devices of `plan`, in the order of their first occurrences `at`. */
  ghost predicate DistinctInOrder(plan: seq<nat>, r: seq<nat>, at: seq<nat>) {
    && |at| == |r|
    && (forall k | 0 <= k < |r| :: at[k] < |plan| && plan[at[k]] == r[k] && FirstSeen(plan, at[k]))
    && (forall j, k | 0 <= j < k < |r| :: at[j] < at[k])
    && (forall d: nat :: d in r <==> d in plan)
    && (forall j, k | 0 <= j < k < |r| :: r[j] != r[k])
  }

  method Dedup(plan: seq<nat>) returns (r: seq<nat>)
    ensures exists at :: DistinctInOrder(plan, r, at)
    ensures plan != [] ==> r != []
  {
    r := [];
    var seen: set<nat> := {};
    ghost var at: seq<nat> := [];
    for i := 0 to |plan|
      invariant seen == set d | d in plan[..i]
      invariant forall d: nat :: d in seen <==> d in r
      invariant |at| == |r| && forall k | 0 <= k < |r| :: at[k] < i && plan[at[k]] == r[k] && FirstSeen(plan, at[k])
      invariant forall j, k | 0 <= j < k < |r| :: at[j] < at[k] && r[j] != r[k]
    {
      assert plan[..i + 1] == plan[..i] + [plan[i]];
      if plan[i] !in seen {
        r := r + [plan[i]];
        at := at + [i];
        seen := seen + {plan[i]};
      }
    }
    assert plan[..|plan|] == plan;
    assert DistinctInOrder(plan, r, at);
    if plan != [] {
      assert plan[0] in r;
    }
  }

  // ----- The resolver -----

  /** The settings a table exists for. */
  ghost predicate Accepted(cfg: Config, parse: Parse) {
    && WorkersPerDevice(cfg) >= 1
    && (cfg.devices.Some? ==> match cfg.devices.value
          case Number(n) => n.Some? && n.value >= 1
          case Str(s) => s == "auto"
          case Array(items) => items != [] && ListAccepted(items)
          case Object(entries) =>
            && entries != [] && WorkersPerDevice(cfg) == 1
            && forall i | 0 <= i < |entries| :: EntryAccepted(parse, entries[i])
          case _ => false)
  }

  /** The workers a map gives device `d`, over all the keys that name it. */
  ghost function WorkersNamed(parse: Parse, entries: seq<Entry>, d: nat): nat {
    if entries == [] then 0
    else
      var e := entries[0];
      (if EntryAccepted(parse, e) && parse(e.key) == Some(d) then AsU64(e.value).value else 0)
      + WorkersNamed(parse, entries[1..], d)
  }

  /** What the table promises before continuous batching thins it. */
  ghost predicate BasePlan(cfg: Config, parse: Parse, p: seq<nat>) {
    var w := WorkersPerDevice(cfg);
    match cfg.devices
    case None => |p| == w && forall i | 0 <= i < |p| :: p[i] == 0
    case Some(Str(_)) => |p| == w && forall i | 0 <= i < |p| :: p[i] == 0
    case Some(Number(Some(n))) => n > 0 && |p| == n * w && forall i | 0 <= i < |p| :: p[i] == i % n
    case Some(Array(items)) =>
      && items != [] && |p| == |items| * w
      && (forall i | 0 <= i < |p| :: Some(p[i]) == AsU64(items[i % |items|]))
      && (forall i | 0 <= i < |items| :: AsU64(items[i]).Some? && Count(p, AsU64(items[i]).value) == w)
    case Some(Object(entries)) => Ascending(p) && forall d: nat :: Count(p, d) == WorkersNamed(parse, entries, d)
    case _ => false
  }

  lemma {:induction false} SharesNamed(parse: Parse, entries: seq<Entry>, slots: seq<Share>, d: nat)
    requires |slots| == |entries| && forall i | 0 <= i < |entries| ::
               EntryAccepted(parse, entries[i]) && slots[i] == ShareOf(parse, entries[i])
    ensures WorkersFor(slots, d) == WorkersNamed(parse, entries, d)
  {
    if entries != [] {
      SharesNamed(parse, entries[1..], slots[1..], d);
    }
  }

  lemma ZeroPlan(w: nat)
    requires w >= 1
    ensures var p := RoundRobin([0], w); |p| == w && forall i | 0 <= i < |p| :: p[i] == 0
  {
    RoundRobinAt([0], w);
  }

  lemma {:induction false} DistinctCount(s: seq<nat>, i: nat)
    requires i < |s| && forall j, k | 0 <= j < k < |s| :: s[j] != s[k]
    ensures Count(s, s[i]) == 1
  {
    assert s == s[..i] + [s[i]] + s[i + 1..];
    assert s[i] !in s[..i] && s[i] !in s[i + 1..];
    assert s[i] !in multiset(s[..i]) && s[i] !in multiset(s[i + 1..]);
  }

  lemma {:induction false} ListPlan(items: seq<Value>, devices: seq<nat>, w: nat)
    requires items != [] && ListAccepted(items) && |devices| == |items| && w >= 1
    requires forall i | 0 <= i < |items| :: Some(devices[i]) == AsU64(items[i])
    ensures var p := RoundRobin(devices, w);
            && |p| == |items| * w && p != []
            && (forall i | 0 <= i < |p| :: Some(p[i]) == AsU64(items[i % |items|]))
            && (forall i | 0 <= i < |items| :: Count(p, AsU64(items[i]).value) == w)
  {
    RoundRobinAt(devices, w);
    assert |items| * w >= 1;
    forall i | 0 <= i < |items| ensures Count(RoundRobin(devices, w), AsU64(items[i]).value) == w {
      DistinctCount(devices, i);
    }
  }

  lemma {:induction false} MapPlan(parse: Parse, entries: seq<Entry>, slots: seq<Share>)
    requires entries != [] && |slots| == |entries|
    requires forall i | 0 <= i < |entries| :: EntryAccepted(parse, entries[i]) && slots[i] == ShareOf(parse, entries[i])
    ensures var p := Expand(SortShares(slots));
            p != [] && Ascending(p) && forall d: nat :: Count(p, d) == WorkersNamed(parse, entries, d)
  {
    var p := Expand(SortShares(slots));
    ExpandAscends(SortShares(slots));
    forall d: nat ensures Count(p, d) == WorkersNamed(parse, entries, d) {
      ExpandCounts(SortShares(slots), d);
      WorkersForPermuted(SortShares(slots), slots, d);
      SharesNamed(parse, entries, slots, d);
    }
    assert Count(p, slots[0].device) > 0;
  }

  method ResolveBase(cfg: Config, parse: Parse) returns (r: Result<seq<nat>, PlanError>)
    ensures r.Success? <==> Accepted(cfg, parse)
    ensures r.Success? ==> r.value != [] && BasePlan(cfg, parse, r.value)
  {
    var w := WorkersPerDevice(cfg);
    if w == 0 {
      return Failure(ZeroWorkers);
    }
    match cfg.devices
    case None =>
      ZeroPlan(w);
      return Success(RoundRobin([0], w));
    case Some(Number(n)) =>
      if n.None? || n.value < 1 {
        return Failure(BadNumber);
      }
      RoundRobinAt(Iota(n.value), w);
      assert n.value * w >= 1;
      return Success(RoundRobin(Iota(n.value), w));
    case Some(Str(s)) =>
      if s != "auto" {
        return Failure(BadString);
      }
      ZeroPlan(w);
      return Success(RoundRobin([0], w));
    case Some(Array(items)) =>
      if items == [] {
        return Failure(EmptyList);
      }
      var devices := ParseList(items);
      if devices.Failure? {
        return Failure(devices.error);
      }
      ListPlan(items, devices.value, w);
      return Success(RoundRobin(devices.value, w));
    case Some(Object(entries)) =>
      if entries == [] {
        return Failure(EmptyMap);
      }
      if w != 1 {
        return Failure(MapWithWorkers);
      }
      var slots := ParseMap(parse, entries);
      if slots.Failure? {
        return Failure(slots.error);
      }
      MapPlan(parse, entries, slots.value);
      return Success(Expand(SortShares(slots.value)));
    case _ => return Failure(Unsupported);
  }

  /** Accepted settings give a non-empty table; continuous batching keeps one worker for each of its devices,
      in the order they first occur. */
  method ResolveDevicePlan(cfg: Config, parse: Parse) returns (r: Result<seq<nat>, PlanError>)
    ensures r.Success? <==> Accepted(cfg, parse)
    ensures r.Success? ==> r.value != []
    ensures r.Success? && !cfg.continuousBatching ==> BasePlan(cfg, parse, r.value)
    ensures r.Success? && cfg.continuousBatching ==>
              exists base, at :: BasePlan(cfg, parse, base) && DistinctInOrder(base, r.value, at)
  {
    r := ResolveBase(cfg, parse);
    if r.Success? && cfg.continuousBatching {
      var plan := Dedup(r.value);
      r := Success(plan);
    }
  }
}
