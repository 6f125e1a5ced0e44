/** Recycle claims at the granularity of single atomic operations.

    A claim sets its slot's flag, then decides on the shared ticket counter, then rolls the
    flag back if it was refused; the slot's ejection lock admits one claim per slot at a time.
    A reset or release swaps the flag off and then returns the ticket. Claims and returns of
    different slots interleave freely. */
module TicketRaces {
  import opened Common

  /** Where the claim running on a slot stands: none, flag set, or refused and about to roll back. */
  datatype Stage = Quiet | Flagged | Refused

  /** `returning`: clears that have swapped a flag off and not yet returned its ticket. Recorded as it happens and read
      by no step: `won`, the claims that got a ticket and were not cleared since; `overlaps`, the clears that hit a
      claim before it was decided or rolled back. */
  datatype State = State(flag: seq<bool>, stage: seq<Stage>, claims: nat, returning: nat, won: multiset<nat>,
                         overlaps: nat)

  datatype Step = SetFlag(i: nat) | Decide(i: nat) | RollBack(i: nat) | Clear(i: nat) | ReturnTicket

  function FetchSub(c: nat): nat { if c == 0 then WORD - 1 else c - 1 }

  ghost predicate Shape(s: State) { |s.flag| == |s.stage| }

  function Next(cap: nat, s: State, step: Step): (t: State)
    requires Shape(s)
    ensures Shape(t) && |t.flag| == |s.flag|
  {
    if step.ReturnTicket? then
      if s.returning > 0 then s.(claims := FetchSub(s.claims), returning := s.returning - 1) else s
    else if step.i >= |s.flag| then s
    else
      var i := step.i;
      match step
      case SetFlag(_) =>
        if s.stage[i].Quiet? && !s.flag[i] then s.(flag := s.flag[i := true], stage := s.stage[i := Flagged]) else s
      case Decide(_) =>
        if !s.stage[i].Flagged? then s
        else if s.claims < cap then s.(claims := s.claims + 1, stage := s.stage[i := Quiet], won := s.won + multiset{i})
        else s.(stage := s.stage[i := Refused])
      case RollBack(_) =>
        if s.stage[i].Refused? then s.(flag := s.flag[i := false], stage := s.stage[i := Quiet]) else s
      case Clear(_) =>
        if !s.flag[i] then s
        else
          var t := s.(flag := s.flag[i := false], returning := s.returning + 1);
          if s.stage[i].Quiet? then t.(won := s.won - multiset{i}) else t.(overlaps := s.overlaps + 1)
  }

  /** A clear that finds a flag whose claim has not finished. */
  predicate Overlaps(s: State, step: Step)
    requires Shape(s)
  {
    step.Clear? && step.i < |s.flag| && s.flag[step.i] && !s.stage[step.i].Quiet?
  }

  /** A running claim has its flag set, and a flag with no claim running stands for exactly one won claim. */
  ghost predicate FlagMatches(s: State, i: nat)
    requires Shape(s) && i < |s.flag|
  {
    (!s.stage[i].Quiet? ==> s.flag[i]) && s.won[i] == if s.flag[i] && s.stage[i].Quiet? then 1 else 0
  }

  ghost predicate FlagsMatch(s: State) {
    && Shape(s)
    && (forall i | i in s.won :: i < |s.flag|)
    && (forall i | 0 <= i < |s.flag| :: FlagMatches(s, i))
  }

  ghost predicate Inv(cap: nat, s: State) { FlagsMatch(s) && s.claims == |s.won| + s.returning <= cap }

  function Initial(n: nat): State { State(seq(n, _ => false), seq(n, _ => Quiet), 0, 0, multiset{}, 0) }

  lemma StepKeepsFlag(cap: nat, s: State, step: Step, i: nat)
    requires FlagsMatch(s) && i < |s.flag|
    ensures FlagMatches(Next(cap, s, step), i) <==> !(Overlaps(s, step) && step.i == i)
  {
    assert FlagMatches(s, i);
    var t := Next(cap, s, step);
    if step.ReturnTicket? || step.i != i {
      assert t.flag[i] == s.flag[i] && t.stage[i] == s.stage[i] && t.won[i] == s.won[i];
    } else if step.Clear? {
      assert t.stage[i] == s.stage[i];
    }
  }

  lemma StepKeepsFlags(cap: nat, s: State, step: Step)
    requires FlagsMatch(s)
    ensures FlagsMatch(Next(cap, s, step)) <==> !Overlaps(s, step)
  {
    forall i: nat | i < |s.flag|
      ensures FlagMatches(Next(cap, s, step), i) <==> !(Overlaps(s, step) && step.i == i)
    {
      StepKeepsFlag(cap, s, step, i);
    }
    if Overlaps(s, step) {
      assert !FlagMatches(Next(cap, s, step), step.i);
    }
  }

  lemma StepKeepsCount(cap: nat, s: State, step: Step)
    requires Inv(cap, s) && !Overlaps(s, step)
    ensures var t := Next(cap, s, step); t.claims == |t.won| + t.returning <= cap
  {
    if step.Clear? && step.i < |s.flag| && s.flag[step.i] {
      assert FlagMatches(s, step.i);
    }
  }

  /** The accounting survives a step exactly when that step is not a clear overlapping a claim on its own slot. */
  lemma StepKeepsTickets(cap: nat, s: State, step: Step)
    requires Inv(cap, s)
    ensures Inv(cap, Next(cap, s, step)) <==> !Overlaps(s, step)
  {
    StepKeepsFlags(cap, s, step);
    if !Overlaps(s, step) {
      StepKeepsCount(cap, s, step);
    }
  }

  ghost function Exec(cap: nat, n: nat, steps: seq<Step>): (s: State)
    ensures Shape(s) && |s.flag| == n
  {
    if steps == [] then Initial(n) else Next(cap, Exec(cap, n, steps[..|steps| - 1]), steps[|steps| - 1])
  }

  ghost predicate OverlapFree(cap: nat, n: nat, steps: seq<Step>) {
    forall k | 0 <= k < |steps| :: !Overlaps(Exec(cap, n, steps[..k]), steps[k])
  }

  lemma {:induction false} ExecKeepsTickets(cap: nat, n: nat, steps: seq<Step>)
    requires OverlapFree(cap, n, steps)
    ensures Inv(cap, Exec(cap, n, steps))
  {
    if steps != [] {
      var before := steps[..|steps| - 1];
      assert forall k | 0 <= k < |before| :: before[..k] == steps[..k] && before[k] == steps[k];
      ExecKeepsTickets(cap, n, before);
      StepKeepsTickets(cap, Exec(cap, n, before), steps[|steps| - 1]);
    }
  }

  lemma FewerWonMisses(won: multiset<nat>, n: nat) returns (i: nat)
    requires |won| < n
    ensures i < n && i !in won
  {
    if n - 1 in won {
      i := FewerWonMisses(won - multiset{n - 1}, n - 1);
    } else {
      i := n - 1;
    }
  }

  /** In every interleaving: tickets are the won claims plus those on their way back, never above the cap; a slot
      with no claim running is flagged exactly when its claim was won and not cleared since; some slot of a larger
      fleet holds no won claim. */
  lemma InterleavedClaims(n: nat, percent: nat, steps: seq<Step>)
    requires OverlapFree(PercentCap(n, percent), n, steps)
    ensures var s := Exec(PercentCap(n, percent), n, steps);
            && s.claims == |s.won| + s.returning <= PercentCap(n, percent)
            && (forall i | 0 <= i < n && s.stage[i].Quiet? :: s.won[i] == if s.flag[i] then 1 else 0)
            && (n >= 2 && percent < 100 ==> exists i: nat | i < n :: i !in s.won)
  {
    ExecKeepsTickets(PercentCap(n, percent), n, steps);
    var s := Exec(PercentCap(n, percent), n, steps);
    forall i | 0 <= i < n && s.stage[i].Quiet? ensures s.won[i] == if s.flag[i] then 1 else 0 {
      assert FlagMatches(s, i);
    }
    if n >= 2 && percent < 100 {
      PercentCapLeavesOne(n, percent);
      var i := FewerWonMisses(s.won, n);
      assert i < n;
    }
  }

  /** A claim run without interruption wins exactly when fewer slots than the cap hold a ticket or are about to
      return one; refused, it leaves the state exactly as it found it. */
  lemma ClaimOutcome(cap: nat, s: State, i: nat)
    requires Inv(cap, s) && i < |s.flag| && s.stage[i].Quiet? && !s.flag[i]
    ensures var t := Next(cap, Next(cap, Next(cap, s, SetFlag(i)), Decide(i)), RollBack(i));
            if |s.won| + s.returning < cap
            then t.won == s.won + multiset{i} && t.flag == s.flag[i := true] && t.claims == s.claims + 1
            else t == s
  {
    assert FlagMatches(s, i);
    var t := Next(cap, Next(cap, Next(cap, s, SetFlag(i)), Decide(i)), RollBack(i));
    if s.claims >= cap {
      assert t.flag == s.flag && t.stage == s.stage;
    }
  }

  // ----- What an overlap costs -----

  /** What is really out: won claims and tickets on their way back. */
  function Out(s: State): nat { |s.won| + s.returning }

  /** A flag with no claim running stands for a won claim, overlaps or not. */
  ghost predicate FlagsWon(s: State) {
    Shape(s) && forall i | 0 <= i < |s.flag| && s.flag[i] && s.stage[i].Quiet? :: i in s.won
  }

  /** Every overlap returns a ticket nobody took, so the counter lags behind what is out by the overlaps so far, and
      wraps when that would take it below zero. */
  predicate Lags(s: State) {
    s.claims == if s.overlaps <= Out(s) then Out(s) - s.overlaps else WORD + Out(s) - s.overlaps
  }

  lemma StepKeepsFlagsWon(cap: nat, s: State, step: Step)
    requires FlagsWon(s)
    ensures FlagsWon(Next(cap, s, step))
  {
  }

  /** How one step moves the counter, what is out, and the overlaps. */
  lemma StepMoves(cap: nat, s: State, step: Step)
    requires FlagsWon(s)
    ensures var t := Next(cap, s, step);
            || (t.claims == s.claims && Out(t) == Out(s) && t.overlaps == s.overlaps)
            || (s.claims < cap && t.claims == s.claims + 1 && Out(t) == Out(s) + 1 && t.overlaps == s.overlaps)
            || (t.claims == s.claims && Out(t) == Out(s) + 1 && t.overlaps == s.overlaps + 1)
            || (Out(s) > 0 && t.claims == FetchSub(s.claims) && Out(t) == Out(s) - 1 && t.overlaps == s.overlaps)
  {
    if step.Clear? && step.i < |s.flag| && s.flag[step.i] && s.stage[step.i].Quiet? {
      assert step.i in s.won;
    }
  }

  lemma StepKeepsLag(cap: nat, s: State, step: Step)
    requires cap < WORD && FlagsWon(s) && Lags(s) && Next(cap, s, step).overlaps <= WORD - cap
    ensures Lags(Next(cap, s, step))
  {
    StepMoves(cap, s, step);
  }

  lemma {:induction false} ExecKeepsLag(cap: nat, n: nat, steps: seq<Step>)
    requires cap < WORD && Exec(cap, n, steps).overlaps <= WORD - cap
    ensures Lags(Exec(cap, n, steps))
  {
    if steps != [] {
      var before, step := steps[..|steps| - 1], steps[|steps| - 1];
      ExecKeepsFlagsWon(cap, n, before);
      StepMoves(cap, Exec(cap, n, before), step);
      ExecKeepsLag(cap, n, before);
      StepKeepsLag(cap, Exec(cap, n, before), step);
    }
  }

  lemma {:induction false} ExecKeepsFlagsWon(cap: nat, n: nat, steps: seq<Step>)
    ensures FlagsWon(Exec(cap, n, steps))
  {
    if steps != [] {
      ExecKeepsFlagsWon(cap, n, steps[..|steps| - 1]);
      StepKeepsFlagsWon(cap, Exec(cap, n, steps[..|steps| - 1]), steps[|steps| - 1]);
    }
  }

  /** In every interleaving, overlaps included, a claim that comes to its decision wins exactly when what is out is at
      least the number of overlaps so far and less than that plus the cap. So with k overlaps the cap is passed by up
      to k once k tickets are out, and with fewer out every claim is refused. */
  lemma OverlapShiftsWindow(cap: nat, n: nat, steps: seq<Step>, i: nat)
    requires cap < WORD && i < n
    requires var s := Exec(cap, n, steps); s.overlaps <= WORD - cap && s.stage[i].Flagged?
    ensures var s := Exec(cap, n, steps);
            Next(cap, s, Decide(i)).won == s.won + multiset{i} <==> s.overlaps <= Out(s) < s.overlaps + cap
  {
    ExecKeepsLag(cap, n, steps);
    var s := Exec(cap, n, steps);
    assert |s.won + multiset{i}| == |s.won| + 1;
  }

  /** A reset between flag and decision returns a ticket never taken. */
  function OverlapRun(i: nat): seq<Step> { [SetFlag(i), Clear(i), ReturnTicket] }

  lemma OverlapWraps(cap: nat, n: nat, i: nat)
    requires i < n
    ensures var s := Exec(cap, n, OverlapRun(i)); Stuck(s)
  {
    var r := OverlapRun(i);
    assert r[..2][..1] == r[..1] && r[..1][..0] == [];
    assert Exec(cap, n, r[..1]) == Next(cap, Initial(n), SetFlag(i));
    assert Exec(cap, n, r[..2]) == Next(cap, Exec(cap, n, r[..1]), Clear(i));
  }

  ghost predicate OverlapFreeFrom(cap: nat, n: nat, from: nat, steps: seq<Step>) {
    forall k | from <= k < |steps| :: !Overlaps(Exec(cap, n, steps[..k]), steps[k])
  }

  /** One overlap and nothing out: below the window for good. */
  ghost predicate Stuck(s: State) {
    && Shape(s) && s.claims == WORD - 1 && s.returning == 0 && s.won == multiset{} && s.overlaps == 1
    && (forall i | 0 <= i < |s.flag| :: s.flag[i] ==> !s.stage[i].Quiet?)
  }

  lemma StuckStep(cap: nat, s: State, step: Step)
    requires cap < WORD && Stuck(s) && !Overlaps(s, step)
    ensures Stuck(Next(cap, s, step))
    ensures step.Decide? && step.i < |s.flag| && s.stage[step.i].Flagged? ==> Next(cap, s, step).stage[step.i].Refused?
  {
  }

  lemma OverlapFreeInit(cap: nat, n: nat, from: nat, steps: seq<Step>)
    requires from < |steps| && OverlapFreeFrom(cap, n, from, steps)
    ensures var before := steps[..|steps| - 1];
            && OverlapFreeFrom(cap, n, from, before) && before[..from] == steps[..from]
            && !Overlaps(Exec(cap, n, before), steps[|steps| - 1])
  {
    var before := steps[..|steps| - 1];
    forall k | from <= k < |before| ensures !Overlaps(Exec(cap, n, before[..k]), before[k]) {
      assert before[..k] == steps[..k] && before[k] == steps[k];
    }
    assert steps[..|before|] == before;
  }

  lemma {:induction false} StaysStuck(cap: nat, n: nat, from: nat, steps: seq<Step>)
    requires cap < WORD && from <= |steps| && OverlapFreeFrom(cap, n, from, steps)
    requires Stuck(Exec(cap, n, steps[..from]))
    ensures Stuck(Exec(cap, n, steps))
  {
    if |steps| == from {
      assert steps[..from] == steps;
    } else {
      OverlapFreeInit(cap, n, from, steps);
      StaysStuck(cap, n, from, steps[..|steps| - 1]);
      StuckStep(cap, Exec(cap, n, steps[..|steps| - 1]), steps[|steps| - 1]);
    }
  }

  /** In a fresh fleet of any size, once one overlap has returned its ticket before its claim was decided, through every
      continuation without another overlap no claim is ever won and whatever claim is decided next is refused. */
  lemma OverlapWrapsCounter(cap: nat, n: nat, i: nat, steps: seq<Step>)
    requires cap < WORD && i < n && OverlapRun(i) <= steps && OverlapFreeFrom(cap, n, 3, steps)
    ensures var s := Exec(cap, n, steps);
            && s.claims == WORD - 1 && s.won == multiset{}
            && forall j | 0 <= j < n && s.stage[j].Flagged? :: Next(cap, s, Decide(j)).stage[j].Refused?
  {
    OverlapWraps(cap, n, i);
    assert steps[..3] == OverlapRun(i);
    StaysStuck(cap, n, 3, steps);
    forall j: nat | j < n && Exec(cap, n, steps).stage[j].Flagged?
      ensures Next(cap, Exec(cap, n, steps), Decide(j)).stage[j].Refused?
    {
      StuckStep(cap, Exec(cap, n, steps), Decide(j));
    }
  }

  lemma ExecStep(cap: nat, n: nat, steps: seq<Step>, k: nat)
    requires k < |steps|
    ensures Exec(cap, n, steps[..k + 1]) == Next(cap, Exec(cap, n, steps[..k]), steps[k])
  {
    assert steps[..k + 1][..k] == steps[..k];
  }

  /** With another ticket out the same overlap lets the cap be passed instead. */
  function OverCapRun(): seq<Step> { [SetFlag(0), Decide(0), SetFlag(1), Clear(1), ReturnTicket, Decide(1)] }

  lemma OverCapFirst(n: nat)
    requires n >= 2
    ensures var s := Exec(1, n, OverCapRun()[..2]);
            s.stage[1].Quiet? && !s.flag[1] && s.claims == 1 && s.returning == 0 && s.won == multiset{0}
  {
    assert OverCapRun()[..0] == [];
    ExecStep(1, n, OverCapRun(), 0);
    ExecStep(1, n, OverCapRun(), 1);
  }

  lemma OverlapPassesCap(n: nat)
    requires n >= 2
    ensures Exec(1, n, OverCapRun()).won == multiset{0, 1}
  {
    OverCapFirst(n);
    var r := OverCapRun();
    ExecStep(1, n, r, 2);
    ExecStep(1, n, r, 3);
    ExecStep(1, n, r, 4);
    var s := Exec(1, n, r[..5]);
    assert s.stage[1].Flagged? && s.claims == 0 && s.won == multiset{0};
    ExecStep(1, n, r, 5);
    assert r[..6] == r;
  }
}
