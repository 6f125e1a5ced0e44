/** Stream-concurrency permits, one atomic operation per step: `fetch_add` decides, losers roll back. */
module StreamPermits {
  import opened Common

  /** A caller of `try_acquire`: not counted, holding a permit, or refused with its roll-back still to do. */
  datatype Caller = Out | Holding | Losing

  datatype State = State(inUse: nat, callers: seq<Caller>)

  datatype Step = Acquire(c: nat) | RollBack(c: nat) | Release(c: nat)

  function Wrap(x: int): nat { x % WORD }

  function Next(limit: nat, s: State, step: Step): State {
    var c := step.c;
    if c >= |s.callers| then s
    else match step
      case Acquire(_) =>
        if !s.callers[c].Out? then s
        else if limit == 0 then s.(callers := s.callers[c := Holding])
        else State(Wrap(s.inUse + 1), s.callers[c := if s.inUse >= limit then Losing else Holding])
      case RollBack(_) => if s.callers[c].Losing? then State(Wrap(s.inUse - 1), s.callers[c := Out]) else s
      case Release(_) => if s.callers[c].Holding? then State(Wrap(s.inUse - 1), s.callers[c := Out]) else s
  }

  ghost function Exec(limit: nat, n: nat, steps: seq<Step>): State {
    if steps == [] then State(0, seq(n, _ => Out))
    else Next(limit, Exec(limit, n, steps[..|steps| - 1]), steps[|steps| - 1])
  }

  ghost function Counted(s: State): set<nat> { set c | 0 <= c < |s.callers| && !s.callers[c].Out? }

  ghost function Holders(s: State): set<nat> { set c | 0 <= c < |s.callers| && s.callers[c].Holding? }

  ghost predicate Inv(limit: nat, n: nat, s: State) {
    |s.callers| == n && s.inUse == |Counted(s)| && |Holders(s)| <= limit
  }

  lemma StepKeepsInv(limit: nat, n: nat, s: State, step: Step)
    requires 0 < limit && n < WORD && Inv(limit, n, s)
    ensures Inv(limit, n, Next(limit, s, step))
  {
    var t := Next(limit, s, step);
    if step.c < n {
      SizesDiffer(Counted(s), Counted(t), step.c);
      SizesDiffer(Holders(s), Holders(t), step.c);
      SubsetSize(Holders(s), Counted(s));
      IndexSetSize(Counted(t), n);
      if step.c in Counted(s) {
        SubsetSize({step.c}, Counted(s));
      }
    }
  }

  /** Outstanding permits never exceed the limit, even while losers are over-counted; the counter is exactly
      holders plus pending roll-backs. */
  lemma {:induction false} PermitsBounded(limit: nat, n: nat, steps: seq<Step>)
    requires 0 < limit && n < WORD
    ensures var s := Exec(limit, n, steps);
            |s.callers| == n && s.inUse == |Counted(s)| && |Holders(s)| <= limit
  {
    if steps == [] {
      assert Counted(Exec(limit, n, steps)) == {} && Holders(Exec(limit, n, steps)) == {};
    } else {
      PermitsBounded(limit, n, steps[..|steps| - 1]);
      StepKeepsInv(limit, n, Exec(limit, n, steps[..|steps| - 1]), steps[|steps| - 1]);
    }
  }

  /** A caller is refused exactly when as many callers as the limit are counted already. */
  lemma PermitDecision(limit: nat, n: nat, steps: seq<Step>, c: nat)
    requires 0 < limit && n < WORD
    requires var s := Exec(limit, n, steps); c < |s.callers| && s.callers[c].Out?
    ensures var s := Exec(limit, n, steps);
            Next(limit, s, Acquire(c)).callers[c].Holding? <==> |Counted(s)| < limit
  {
    PermitsBounded(limit, n, steps);
  }

  /** A permit taken and returned leaves the counter as it was exactly when a limit is set: without one the
      acquisition is not counted but the release is, and the counter wraps below zero. */
  lemma UnlimitedReleaseWraps(limit: nat)
    ensures Exec(limit, 1, [Acquire(0), Release(0)]).inUse == 0 <==> limit > 0
    ensures limit == 0 ==> Exec(limit, 1, [Acquire(0), Release(0)]).inUse == WORD - 1
  {
    var r := [Acquire(0), Release(0)];
    assert r[..1] == [Acquire(0)] && [Acquire(0)][..0] == [];
    var s := Exec(limit, 1, [Acquire(0)]);
    assert Exec(limit, 1, []) == State(0, [Out]);
    assert s.callers == [Holding];
  }
}

/** Global admission: a compare-and-swap counter whose guards can be parked in a shared, cloneable cell. */
module Admission {
  import opened Common

  /** Where a guard is: held by its task, parked in a cell, or dropped. */
  datatype Guard = Held | ParkedIn(cell: nat) | Dropped

  /** A task in `try_acquire`: outside, or past its load with the value it read. */
  datatype Task = Outside | Loaded(seen: nat)

  /** `cells[k]`: how many clones of cell `k` exist and which guard it holds; `drops[g]`: how often guard `g` was
      dropped. */
  datatype Cell = Cell(clones: nat, guard: Option<nat>)

  datatype State = State(current: nat, tasks: seq<Task>, guards: seq<Guard>, drops: seq<nat>, cells: seq<Cell>)

  datatype Step =
    | Load(t: nat)
    | Swap(t: nat, spurious: bool)
    | DropGuard(g: nat)
    | ParkGuard(g: nat)
    | CloneCell(k: nat)
    | TakeGuard(k: nat)
    | DropClone(k: nat)

  /** Without a cap a guard is a no-op: neither its creation nor its drop touches the counter. */
  function Release(cap: nat, s: State, g: nat): State
    requires g < |s.guards| == |s.drops|
  {
    s.(current := if cap > 0 && s.current > 0 then s.current - 1 else s.current,
       guards := s.guards[g := Dropped], drops := s.drops[g := s.drops[g] + 1])
  }

  ghost predicate Shape(s: State) {
    && |s.guards| == |s.drops|
    && forall k | 0 <= k < |s.cells| && s.cells[k].guard.Some? :: s.cells[k].guard.value < |s.guards|
  }

  /** A step that is not enabled does nothing; `spurious` is the weak exchange failing for no reason. */
  function Next(cap: nat, s: State, step: Step): State
    requires Shape(s)
  {
    match step
    case Load(t) =>
      if t >= |s.tasks| || !s.tasks[t].Outside? then s
      else if cap == 0 then s.(guards := s.guards + [Held], drops := s.drops + [0])
      else if s.current < cap then s.(tasks := s.tasks[t := Loaded(s.current)])
      else s
    case Swap(t, spurious) =>
      if t < |s.tasks| && s.tasks[t].Loaded? then
        var out := s.(tasks := s.tasks[t := Outside]);
        if spurious || s.current != s.tasks[t].seen then out
        else out.(current := s.current + 1, guards := s.guards + [Held], drops := s.drops + [0])
      else s
    case DropGuard(g) => if g < |s.guards| && s.guards[g].Held? then Release(cap, s, g) else s
    case ParkGuard(g) =>
      if g < |s.guards| && s.guards[g].Held?
      then s.(guards := s.guards[g := ParkedIn(|s.cells|)], cells := s.cells + [Cell(1, Some(g))]) else s
    case CloneCell(k) =>
      if k < |s.cells| && s.cells[k].clones > 0
      then s.(cells := s.cells[k := s.cells[k].(clones := s.cells[k].clones + 1)]) else s
    case TakeGuard(k) =>
      if k < |s.cells| && s.cells[k].clones > 0 && s.cells[k].guard.Some?
      then s.(guards := s.guards[s.cells[k].guard.value := Held],
              cells := s.cells[k := s.cells[k].(guard := None)]) else s
    case DropClone(k) =>
      if k < |s.cells| && s.cells[k].clones > 0 then
        var c := s.cells[k];
        if c.clones == 1 && c.guard.Some?
        then Release(cap, s.(cells := s.cells[k := Cell(0, None)]), c.guard.value)
        else s.(cells := s.cells[k := c.(clones := c.clones - 1)])
      else s
  }

  ghost function Outstanding(s: State): set<nat> { set g | 0 <= g < |s.guards| && !s.guards[g].Dropped? }

  ghost predicate CountInv(cap: nat, s: State)
    requires Shape(s)
  {
    && (cap > 0 ==> s.current == |Outstanding(s)| <= cap)
    && (cap == 0 ==> s.current == 0)
    && (forall t | 0 <= t < |s.tasks| && s.tasks[t].Loaded? :: s.tasks[t].seen < cap)
    && (forall g | 0 <= g < |s.guards| :: s.drops[g] == if s.guards[g].Dropped? then 1 else 0)
  }

  /** Cells and the guards parked in them point at each other. */
  ghost predicate CellInv(s: State)
    requires Shape(s)
  {
    CellsPoint(s) && GuardsPoint(s)
  }

  predicate Parks(s: State, k: nat, g: nat) {
    k < |s.cells| && s.cells[k].guard == Some(g) && s.cells[k].clones > 0
  }

  ghost predicate Inv(cap: nat, s: State) { Shape(s) && CountInv(cap, s) && CellInv(s) }

  ghost predicate CellsPoint(s: State)
    requires Shape(s)
  {
    forall k | 0 <= k < |s.cells| && s.cells[k].guard.Some? :: s.guards[s.cells[k].guard.value] == ParkedIn(k)
  }

  ghost predicate GuardsPoint(s: State) {
    forall g | 0 <= g < |s.guards| && s.guards[g].ParkedIn? :: Parks(s, s.guards[g].cell, g)
  }

  lemma StepKeepsShape(cap: nat, s: State, step: Step)
    requires Shape(s)
    ensures Shape(Next(cap, s, step))
  {
  }

  lemma StepKeepsCellsPoint(cap: nat, s: State, step: Step)
    requires Shape(s) && CellsPoint(s) && Shape(Next(cap, s, step))
    ensures CellsPoint(Next(cap, s, step))
  {
  }

  lemma StepKeepsGuardsPoint(cap: nat, s: State, step: Step)
    requires Shape(s) && CellsPoint(s) && GuardsPoint(s)
    ensures GuardsPoint(Next(cap, s, step))
  {
    var t := Next(cap, s, step);
    forall g | 0 <= g < |t.guards| && t.guards[g].ParkedIn? ensures Parks(t, t.guards[g].cell, g) {
      assert g < |s.guards| && s.guards[g].ParkedIn? ==> Parks(s, s.guards[g].cell, g);
    }
  }

  lemma StepKeepsCells(cap: nat, s: State, step: Step)
    requires Inv(cap, s)
    ensures Shape(Next(cap, s, step)) && CellInv(Next(cap, s, step))
  {
    StepKeepsShape(cap, s, step);
    StepKeepsCellsPoint(cap, s, step);
    StepKeepsGuardsPoint(cap, s, step);
  }

  /** The guard a step drops, if any. */
  function DroppedBy(s: State, step: Step): Option<nat> {
    match step
    case DropGuard(g) => if g < |s.guards| && s.guards[g].Held? then Some(g) else None
    case DropClone(k) => if k < |s.cells| && s.cells[k].clones == 1 then s.cells[k].guard else None
    case _ => None
  }

  /** Between two states: at most one guard more, the one named dropped, all others as they were. */
  ghost predicate GuardsMove(s: State, t: State, d: Option<nat>) {
    && |s.guards| <= |t.guards| <= |s.guards| + 1
    && (forall g | 0 <= g < |s.guards| :: t.guards[g].Dropped? <==> s.guards[g].Dropped? || d == Some(g))
    && (|t.guards| > |s.guards| ==> d.None? && !t.guards[|s.guards|].Dropped?)
    && (d.Some? ==> d.value < |s.guards| && !s.guards[d.value].Dropped?)
  }

  lemma StepMovesGuards(cap: nat, s: State, step: Step)
    requires Shape(s) && CellsPoint(s)
    ensures GuardsMove(s, Next(cap, s, step), DroppedBy(s, step))
  {
  }

  lemma StepMovesOutstanding(s: State, t: State, d: Option<nat>)
    requires GuardsMove(s, t, d)
    ensures if |t.guards| > |s.guards| then Outstanding(t) == Outstanding(s) + {|s.guards|}
            else if d.Some? then d.value in Outstanding(s) && Outstanding(t) == Outstanding(s) - {d.value}
            else Outstanding(t) == Outstanding(s)
  {
  }

  lemma StepKeepsDrops(cap: nat, s: State, step: Step)
    requires Inv(cap, s) && Shape(Next(cap, s, step))
    ensures var t := Next(cap, s, step);
            forall g | 0 <= g < |t.guards| :: t.drops[g] == if t.guards[g].Dropped? then 1 else 0
  {
  }

  lemma StepMovesCurrent(cap: nat, s: State, step: Step)
    requires Shape(s) && forall t | 0 <= t < |s.tasks| && s.tasks[t].Loaded? :: s.tasks[t].seen < cap
    ensures var t, d := Next(cap, s, step), DroppedBy(s, step);
            && (cap == 0 ==> t.current == s.current)
            && (cap > 0 && |t.guards| > |s.guards| ==> s.current < cap && t.current == s.current + 1)
            && (cap > 0 && |t.guards| <= |s.guards| && d.Some? && s.current > 0 ==> t.current == s.current - 1)
            && (|t.guards| <= |s.guards| && d.None? ==> t.current == s.current)
            && (forall j | 0 <= j < |t.tasks| && t.tasks[j].Loaded? :: t.tasks[j].seen < cap)
  {
  }

  lemma StepKeepsCount(cap: nat, s: State, step: Step)
    requires Inv(cap, s) && Shape(Next(cap, s, step))
    ensures CountInv(cap, Next(cap, s, step))
  {
    StepMovesGuards(cap, s, step);
    StepMovesOutstanding(s, Next(cap, s, step), DroppedBy(s, step));
    StepMovesCurrent(cap, s, step);
    StepKeepsDrops(cap, s, step);
  }

  ghost function Exec(cap: nat, n: nat, steps: seq<Step>): (s: State)
    ensures Shape(s)
  {
    if steps == [] then State(0, seq(n, _ => Outside), [], [], [])
    else
      var s := Exec(cap, n, steps[..|steps| - 1]);
      StepKeepsShape(cap, s, steps[|steps| - 1]);
      Next(cap, s, steps[|steps| - 1])
  }

  lemma {:induction false} ExecKeepsInv(cap: nat, n: nat, steps: seq<Step>)
    ensures Inv(cap, Exec(cap, n, steps))
  {
    if steps == [] {
      assert Outstanding(Exec(cap, n, steps)) == {};
    } else {
      var s := Exec(cap, n, steps[..|steps| - 1]);
      ExecKeepsInv(cap, n, steps[..|steps| - 1]);
      StepKeepsCells(cap, s, steps[|steps| - 1]);
      StepKeepsCount(cap, s, steps[|steps| - 1]);
    }
  }

  /** The count is the outstanding guards, never above the cap; every guard is released at most once, and a guard
      lost from its cell and its task was released. */
  lemma AdmissionBounded(cap: nat, n: nat, steps: seq<Step>)
    ensures var s := Exec(cap, n, steps);
            && (cap > 0 ==> s.current == |Outstanding(s)| <= cap)
            && (cap == 0 ==> s.current == 0)
            && (forall g | 0 <= g < |s.guards| :: s.drops[g] <= 1 && (s.drops[g] == 1 <==> s.guards[g].Dropped?))
            && (forall j, k | 0 <= j < k < |s.cells| && s.cells[j].guard.Some? :: s.cells[j].guard != s.cells[k].guard)
  {
    ExecKeepsInv(cap, n, steps);
  }

  /** An attempt that is not disturbed admits exactly when there is room, or no cap at all. */
  lemma AdmitsExactlyWithRoom(cap: nat, n: nat, steps: seq<Step>, t: nat)
    requires var s := Exec(cap, n, steps); t < |s.tasks| && s.tasks[t].Outside?
    ensures var s := Exec(cap, n, steps);
            var m := Next(cap, s, Load(t));
            Shape(m) && (|Next(cap, m, Swap(t, false)).guards| > |s.guards| <==> cap == 0 || |Outstanding(s)| < cap)
  {
    ExecKeepsInv(cap, n, steps);
  }

  /** Taking hands the parked guard over without releasing it, and succeeds once: the second take finds the cell empty,
      and the guard is then released by its holder alone, not by the last clone of the cell. */
  lemma TakeIsOneShot(cap: nat, s: State, k: nat)
    requires Inv(cap, s)
    ensures var t := Next(cap, s, TakeGuard(k));
            && Shape(t) && Next(cap, t, TakeGuard(k)) == t && t.current == s.current && t.drops == s.drops
            && (k < |s.cells| && s.cells[k].clones > 0 ==>
                  && t.cells[k].guard.None? && DroppedBy(t, DropClone(k)).None?
                  && (s.cells[k].guard.Some? ==>
                        && t.guards[s.cells[k].guard.value].Held?
                        && DroppedBy(t, DropGuard(s.cells[k].guard.value)) == s.cells[k].guard))
  {
  }

  /** A parked guard is in a cell of its own with one clone, and the last clone to go releases it. */
  lemma ParkedGuardIsReleasedOnce(cap: nat, s: State, g: nat)
    requires Inv(cap, s) && g < |s.guards| && s.guards[g].Held?
    ensures var t := Next(cap, s, ParkGuard(g));
            && Shape(t) && t.current == s.current && |t.cells| == |s.cells| + 1
            && t.cells[|s.cells|] == Cell(1, Some(g)) && DroppedBy(t, DropGuard(g)).None?
            && DroppedBy(t, DropClone(|s.cells|)) == Some(g)
            && (var u := Next(cap, t, CloneCell(|s.cells|)); DroppedBy(u, DropClone(|s.cells|)).None?)
  {
  }
}
