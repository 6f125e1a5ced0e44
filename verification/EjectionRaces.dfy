/** Ejections at the granularity of single lock operations.

    An ejection holds its own slot's lock while it looks at the other slots one by one; a slot whose
    lock is taken at that moment counts as not ejected. Any other call on a slot also holds its lock,
    and may close the circuit or open it by force. */
module EjectionRaces {
  import opened Common

  /** `raced`: when it was decided, some ejected slot had escaped its scan behind a taken lock or by being ejected after
      it was passed. */
  datatype Circuit = Closed | Ejected(raced: bool) | Forced

  /** The slot's lock: free, held by some other call, or held by an ejection that has looked at the slots below `next`,
      found those in `seen` ejected, and may have missed those in `missed`. */
  datatype Lock = Free | Busy | Scanning(next: nat, seen: set<nat>, missed: set<nat>)

  datatype State = State(circuits: seq<Circuit>, locks: seq<Lock>)

  datatype Step =
    | Begin(i: nat) | Look(i: nat) | Decide(i: nat)
    | Take(i: nat) | Release(i: nat) | Close(i: nat) | Force(i: nat)

  /** What looking at slot `k` adds to a scan. */
  function Looked(s: State, scan: Lock, i: nat): Lock
    requires |s.circuits| == |s.locks| && scan.Scanning? && scan.next < |s.locks|
  {
    var k := scan.next;
    if k == i then scan.(next := k + 1)
    else if !s.locks[k].Free? then scan.(next := k + 1, missed := scan.missed + {k})
    else if !s.circuits[k].Closed? then scan.(next := k + 1, seen := scan.seen + {k})
    else scan.(next := k + 1)
  }

  /** Slot `i` was ejected: a scan that had passed it missed it. */
  function Overtaken(scan: Lock, i: nat): Lock {
    if scan.Scanning? && i < scan.next then scan.(missed := scan.missed + {i}) else scan
  }

  /** Some slot ejected now was missed and not seen. */
  predicate Escaped(s: State, scan: Lock)
    requires scan.Scanning?
  {
    exists j | j in scan.missed :: j < |s.circuits| && s.circuits[j].Ejected? && j !in scan.seen
  }

  /** A step that is not enabled does nothing. */
  function Next(cap: nat, s: State, step: Step): (t: State)
    requires |s.circuits| == |s.locks|
    ensures |t.circuits| == |t.locks| == |s.locks|
  {
    var i := step.i;
    if i >= |s.locks| then s
    else match step
      case Begin(_) =>
        if s.locks[i].Free? && s.circuits[i].Closed? then s.(locks := s.locks[i := Scanning(0, {}, {})]) else s
      case Look(_) =>
        if s.locks[i].Scanning? && s.locks[i].next < |s.locks|
        then s.(locks := s.locks[i := Looked(s, s.locks[i], i)]) else s
      case Decide(_) =>
        if !s.locks[i].Scanning? || s.locks[i].next < |s.locks| then s
        else if |s.locks[i].seen| < cap then
          State(s.circuits[i := Ejected(Escaped(s, s.locks[i]))],
                seq(|s.locks|, k requires 0 <= k < |s.locks| => if k == i then Free else Overtaken(s.locks[k], i)))
        else s.(locks := s.locks[i := Free])
      case Take(_) => if s.locks[i].Free? then s.(locks := s.locks[i := Busy]) else s
      case Release(_) => if s.locks[i].Busy? then s.(locks := s.locks[i := Free]) else s
      case Close(_) => if s.locks[i].Busy? then s.(circuits := s.circuits[i := Closed]) else s
      case Force(_) => if s.locks[i].Busy? && s.circuits[i].Closed? then s.(circuits := s.circuits[i := Forced]) else s
  }

  ghost function Exec(cap: nat, s: State, steps: seq<Step>): (t: State)
    requires |s.circuits| == |s.locks|
    ensures |t.circuits| == |t.locks| == |s.locks|
  {
    if steps == [] then s else Next(cap, Exec(cap, s, steps[..|steps| - 1]), steps[|steps| - 1])
  }

  function Initial(n: nat): State { State(seq(n, _ => Closed), seq(n, _ => Free)) }

  /** Ejected for errors. */
  ghost function EjectedSet(s: State): set<nat> { set i | 0 <= i < |s.circuits| && s.circuits[i].Ejected? }

  ghost function RacedSet(s: State): set<nat> {
    set i | 0 <= i < |s.circuits| && s.circuits[i].Ejected? && s.circuits[i].raced
  }

  /** A scan accounts for every slot it has passed that is ejected now: it saw it, or it may have missed it. */
  ghost predicate ScanSound(s: State, i: nat)
    requires |s.circuits| == |s.locks| && i < |s.locks|
  {
    s.locks[i].Scanning? ==>
      && s.circuits[i].Closed?
      && forall j | 0 <= j < s.locks[i].next && j < |s.circuits| && j != i && s.circuits[j].Ejected? ::
           j in s.locks[i].seen || j in s.locks[i].missed
  }

  ghost predicate Inv(cap: nat, s: State) {
    && |s.circuits| == |s.locks|
    && (forall i | 0 <= i < |s.locks| :: ScanSound(s, i))
    && |EjectedSet(s)| <= cap + |RacedSet(s)|
  }

  lemma StepKeepsScan(cap: nat, s: State, step: Step, i: nat)
    requires Inv(cap, s) && i < |s.locks|
    ensures ScanSound(Next(cap, s, step), i)
  {
    assert ScanSound(s, i);
  }

  /** An ejection whose scan let no ejected slot escape leaves the fleet within the cap. */
  lemma CleanDecision(cap: nat, s: State, i: nat)
    requires Inv(cap, s) && i < |s.locks| && s.locks[i].Scanning? && s.locks[i].next >= |s.locks|
    requires !Escaped(s, s.locks[i]) && |s.locks[i].seen| < cap
    ensures |EjectedSet(Next(cap, s, Decide(i)))| <= cap
  {
    var t := Next(cap, s, Decide(i));
    assert ScanSound(s, i);
    assert EjectedSet(t) - {i} <= s.locks[i].seen;
    SubsetSize(EjectedSet(t) - {i}, s.locks[i].seen);
    assert EjectedSet(t) == (EjectedSet(t) - {i}) + {i};
  }

  lemma StepKeepsBound(cap: nat, s: State, step: Step)
    requires Inv(cap, s)
    ensures var t := Next(cap, s, step); |EjectedSet(t)| <= cap + |RacedSet(t)|
  {
    var t, i := Next(cap, s, step), step.i;
    if step.Decide? && t.circuits != s.circuits && !Escaped(s, s.locks[i]) {
      CleanDecision(cap, s, i);
    } else {
      SizesDiffer(EjectedSet(s), EjectedSet(t), i);
      SizesDiffer(RacedSet(s), RacedSet(t), i);
    }
  }

  /** In every interleaving the slots ejected for errors exceed the cap by at most the ejections that raced, so without
      a race the cap holds. */
  lemma {:induction false} CapUnderRaces(cap: nat, n: nat, steps: seq<Step>)
    ensures Inv(cap, Exec(cap, Initial(n), steps))
    ensures var s := Exec(cap, Initial(n), steps);
            && |EjectedSet(s)| <= cap + |RacedSet(s)|
            && (RacedSet(s) == {} ==> |EjectedSet(s)| <= cap)
  {
    if steps == [] {
      assert EjectedSet(Initial(n)) == {};
    } else {
      CapUnderRaces(cap, n, steps[..|steps| - 1]);
      var s, step := Exec(cap, Initial(n), steps[..|steps| - 1]), steps[|steps| - 1];
      forall i: nat | i < |s.locks| ensures ScanSound(Next(cap, s, step), i) {
        StepKeepsScan(cap, s, step, i);
      }
      StepKeepsBound(cap, s, step);
    }
  }

  // ----- How far the cap can be passed -----

  lemma {:induction false} ExecConcat(cap: nat, s: State, a: seq<Step>, b: seq<Step>)
    requires |s.circuits| == |s.locks|
    ensures Exec(cap, s, a + b) == Exec(cap, Exec(cap, s, a), b)
  {
    if b == [] {
      assert a + b == a;
    } else {
      assert (a + b)[..|a + b| - 1] == a + b[..|b| - 1];
      ExecConcat(cap, s, a, b[..|b| - 1]);
    }
  }

  /** A whole scan of slot `i` up to slot `k`. */
  function Scan(i: nat, k: nat): seq<Step> { [Begin(i)] + seq(k, _ => Look(i)) }

  ghost function SeenBelow(s: State, i: nat, k: nat): set<nat>
    requires |s.circuits| == |s.locks| && k <= |s.locks|
  {
    set j | 0 <= j < k && j != i && s.locks[j].Free? && !s.circuits[j].Closed?
  }

  ghost function MissedBelow(s: State, i: nat, k: nat): set<nat>
    requires k <= |s.locks|
  {
    set j | 0 <= j < k && j != i && !s.locks[j].Free?
  }

  lemma {:induction false} AfterScan(cap: nat, s: State, i: nat, k: nat)
    requires |s.circuits| == |s.locks| && i < |s.locks| && k <= |s.locks|
    requires s.locks[i].Free? && s.circuits[i].Closed?
    ensures Exec(cap, s, Scan(i, k)) ==
              State(s.circuits, s.locks[i := Scanning(k, SeenBelow(s, i, k), MissedBelow(s, i, k))])
  {
    if k == 0 {
      assert Scan(i, 0) == [Begin(i)] && [Begin(i)][..0] == [];
      assert SeenBelow(s, i, 0) == {} && MissedBelow(s, i, 0) == {};
    } else {
      assert Scan(i, k)[..k] == Scan(i, k - 1) && Scan(i, k)[k] == Look(i);
      AfterScan(cap, s, i, k - 1);
      LookedNext(s, i, k - 1);
    }
  }

  lemma LookedNext(s: State, i: nat, k: nat)
    requires |s.circuits| == |s.locks| && i < |s.locks| && k < |s.locks|
    ensures var scan := Scanning(k, SeenBelow(s, i, k), MissedBelow(s, i, k));
            Looked(s.(locks := s.locks[i := scan]), scan, i) ==
              Scanning(k + 1, SeenBelow(s, i, k + 1), MissedBelow(s, i, k + 1))
  {
    var seen, missed := SeenBelow(s, i, k + 1), MissedBelow(s, i, k + 1);
    if k == i {
      assert seen == SeenBelow(s, i, k) && missed == MissedBelow(s, i, k);
    } else if !s.locks[k].Free? {
      assert seen == SeenBelow(s, i, k) && missed == MissedBelow(s, i, k) + {k};
    } else if !s.circuits[k].Closed? {
      assert seen == SeenBelow(s, i, k) + {k} && missed == MissedBelow(s, i, k);
    } else {
      assert seen == SeenBelow(s, i, k) && missed == MissedBelow(s, i, k);
    }
  }

  /** An ejection no other call interferes with decides as a whole call does: it ejects exactly when fewer other slots
      than the cap are ejected, forced ones included. */
  lemma UndisturbedEjection(cap: nat, s: State, i: nat)
    requires |s.circuits| == |s.locks| && i < |s.locks| && s.circuits[i].Closed?
    requires forall j | 0 <= j < |s.locks| :: s.locks[j].Free?
    ensures var t := Exec(cap, s, Scan(i, |s.locks|) + [Decide(i)]);
            var others := set j | 0 <= j < |s.circuits| && j != i && !s.circuits[j].Closed?;
            && (t.circuits[i].Ejected? <==> |others| < cap)
            && (forall j | 0 <= j < |s.circuits| && j != i :: t.circuits[j] == s.circuits[j])
            && (forall j | 0 <= j < |s.locks| :: t.locks[j].Free?)
  {
    var n := |s.locks|;
    AfterScan(cap, s, i, n);
    var u := Exec(cap, s, Scan(i, n));
    ExecConcat(cap, s, Scan(i, n), [Decide(i)]);
    ExecOne(cap, u, Decide(i));
    assert SeenBelow(s, i, n) == set j | 0 <= j < |s.circuits| && j != i && !s.circuits[j].Closed?;
  }

  /** A slot that has scanned the whole fleet and seen nothing ejected. */
  predicate Poised(s: State, j: nat)
    requires j < |s.locks|
  {
    s.locks[j].Scanning? && s.locks[j].next == |s.locks| && s.locks[j].seen == {}
  }

  /** The slots from `c` up to `m` scan while nothing is ejected yet. */
  function Early(n: nat, c: nat, m: nat): seq<Step> { if m <= c then [] else Early(n, c, m - 1) + Scan(m - 1, n) }

  ghost predicate AfterEarly(s: State, c: nat, m: nat) {
    && |s.circuits| == |s.locks|
    && forall j | 0 <= j < |s.locks| :: s.circuits[j].Closed? && if c <= j < m then Poised(s, j) else s.locks[j].Free?
  }

  lemma EarlyStep(s: State, c: nat, m: nat)
    requires AfterEarly(s, c, m) && c <= m < |s.locks|
    ensures var n := |s.locks|;
            AfterEarly(s.(locks := s.locks[m := Scanning(n, SeenBelow(s, m, n), MissedBelow(s, m, n))]), c, m + 1)
  {
    assert SeenBelow(s, m, |s.locks|) == {};
  }

  lemma {:induction false} EarlyRuns(cap: nat, s: State, c: nat, m: nat)
    requires AfterEarly(s, c, c) && c <= m <= |s.locks|
    ensures AfterEarly(Exec(cap, s, Early(|s.locks|, c, m)), c, m)
  {
    if m > c {
      var n := |s.locks|;
      var before, scan := Early(n, c, m - 1), Scan(m - 1, n);
      EarlyRuns(cap, s, c, m - 1);
      var u := Exec(cap, s, before);
      AfterScan(cap, u, m - 1, n);
      EarlyStep(u, c, m - 1);
      assert AfterEarly(Exec(cap, u, scan), c, m);
      ExecConcat(cap, s, before, scan);
      assert Early(n, c, m) == before + scan;
    }
  }

  /** The first `m` slots are ejected one after the other. */
  function InTurn(n: nat, m: nat): seq<Step> {
    if m == 0 then [] else InTurn(n, m - 1) + Scan(m - 1, n) + [Decide(m - 1)]
  }

  ghost predicate AfterInTurn(s: State, c: nat, m: nat) {
    && |s.circuits| == |s.locks|
    && (forall j | 0 <= j < |s.locks| && j < c ::
          s.locks[j].Free? && s.circuits[j] == if j < m then Ejected(false) else Closed)
    && (forall j | c <= j < |s.locks| :: s.circuits[j].Closed? && Poised(s, j))
    && (forall j | c <= j < |s.locks| :: s.locks[j].Scanning? && (m > 0 ==> 0 in s.locks[j].missed))
  }

  lemma DecideInTurn(cap: nat, s: State, c: nat, m: nat)
    requires AfterInTurn(s, c, m) && m < c <= cap && c <= |s.locks|
    ensures var n := |s.locks|;
            var t := State(s.circuits, s.locks[m := Scanning(n, SeenBelow(s, m, n), MissedBelow(s, m, n))]);
            AfterInTurn(Next(cap, t, Decide(m)), c, m + 1)
  {
    var n := |s.locks|;
    var seen := SeenBelow(s, m, n);
    IndexSetSize(seen, m);
    var t := State(s.circuits, s.locks[m := Scanning(n, seen, MissedBelow(s, m, n))]);
    assert !Escaped(t, t.locks[m]);
    var u := Next(cap, t, Decide(m));
    forall j | c <= j < n ensures u.locks[j] == Overtaken(s.locks[j], m) && Poised(s, j) {
    }
  }

  lemma ExecOne(cap: nat, s: State, step: Step)
    requires |s.circuits| == |s.locks|
    ensures Exec(cap, s, [step]) == Next(cap, s, step)
  {
    assert [step][..0] == [];
  }

  lemma {:induction false} InTurnRuns(cap: nat, s: State, c: nat, m: nat)
    requires AfterInTurn(s, c, 0) && m <= c <= cap && c <= |s.locks|
    ensures AfterInTurn(Exec(cap, s, InTurn(|s.locks|, m)), c, m)
  {
    if m > 0 {
      var n := |s.locks|;
      InTurnRuns(cap, s, c, m - 1);
      var u := Exec(cap, s, InTurn(n, m - 1));
      AfterScan(cap, u, m - 1, n);
      DecideInTurn(cap, u, c, m - 1);
      ExecConcat(cap, s, InTurn(n, m - 1), Scan(m - 1, n));
      ExecOne(cap, Exec(cap, u, Scan(m - 1, n)), Decide(m - 1));
      ExecConcat(cap, s, InTurn(n, m - 1) + Scan(m - 1, n), [Decide(m - 1)]);
    }
  }

  /** The early scanners decide on what they saw. */
  function Late(c: nat, m: nat): seq<Step> { if m <= c then [] else Late(c, m - 1) + [Decide(m - 1)] }

  ghost predicate AfterLate(s: State, c: nat, m: nat) {
    && |s.circuits| == |s.locks|
    && (forall j | 0 <= j < |s.locks| && j < m :: s.circuits[j] == Ejected(j >= c))
    && (forall j | m <= j < |s.locks| :: s.circuits[j].Closed? && Poised(s, j) && 0 in s.locks[j].missed)
  }

  lemma DecideLate(cap: nat, s: State, c: nat, m: nat)
    requires AfterLate(s, c, m) && 1 <= cap && 1 <= c <= m < |s.locks|
    ensures AfterLate(Next(cap, s, Decide(m)), c, m + 1)
  {
    assert s.circuits[0].Ejected? && |s.locks[m].seen| == 0;
    assert Escaped(s, s.locks[m]);
  }

  lemma {:induction false} LateRuns(cap: nat, s: State, c: nat, m: nat)
    requires AfterLate(s, c, c) && 1 <= cap && 1 <= c <= m <= |s.locks|
    ensures AfterLate(Exec(cap, s, Late(c, m)), c, m)
  {
    if m > c {
      LateRuns(cap, s, c, m - 1);
      var u := Exec(cap, s, Late(c, m - 1));
      DecideLate(cap, u, c, m - 1);
      ExecOne(cap, u, Decide(m - 1));
      ExecConcat(cap, s, Late(c, m - 1), [Decide(m - 1)]);
    }
  }

  /** All but `c` slots scan first, those `c` are ejected in turn, and the others decide on their old scans. */
  function WorstRun(c: nat, n: nat): seq<Step> { Early(n, c, n) + InTurn(n, c) + Late(c, n) }

  lemma {:induction false} IntervalSize(s: set<nat>, lo: nat, hi: nat)
    requires lo <= hi && forall i :: i in s <==> lo <= i < hi
    ensures |s| == hi - lo
    decreases hi
  {
    if lo == hi {
      assert s == {};
    } else {
      IntervalSize(s - {hi - 1}, lo, hi - 1);
    }
  }

  lemma WorstRunEnds(cap: nat, n: nat)
    requires cap >= 1 && n >= 1
    ensures AfterLate(Exec(cap, Initial(n), WorstRun(Min(cap, n), n)), Min(cap, n), n)
  {
    var c := Min(cap, n);
    EarlyRuns(cap, Initial(n), c, n);
    var s := Exec(cap, Initial(n), Early(n, c, n));
    assert AfterInTurn(s, c, 0);
    InTurnRuns(cap, s, c, c);
    var t := Exec(cap, s, InTurn(n, c));
    assert AfterLate(t, c, c);
    LateRuns(cap, t, c, n);
    ExecConcat(cap, Initial(n), Early(n, c, n), InTurn(n, c));
    ExecConcat(cap, Initial(n), Early(n, c, n) + InTurn(n, c), Late(c, n));
  }

  /** The bound is reached: for every cap and every larger fleet there is a run that ejects all slots, exactly the cap
      plus those that raced. */
  lemma AllEjectTogether(cap: nat, n: nat)
    requires cap >= 1 && n >= 1
    ensures var s := Exec(cap, Initial(n), WorstRun(Min(cap, n), n));
            && (forall i | 0 <= i < n :: s.circuits[i].Ejected?)
            && |EjectedSet(s)| == n && |RacedSet(s)| == n - Min(cap, n)
            && (n >= cap ==> |EjectedSet(s)| == cap + |RacedSet(s)|)
  {
    WorstRunEnds(cap, n);
    var s := Exec(cap, Initial(n), WorstRun(Min(cap, n), n));
    IntervalSize(EjectedSet(s), 0, n);
    IntervalSize(RacedSet(s), Min(cap, n), n);
  }
}
