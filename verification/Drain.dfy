/** Graceful drain: the in-flight counter through every interleaving of submitting, dispatching and completing.

    `try_submit` looks the queue up, counts the request, pushes it (or drops it when the queue is
    full) and returns, as separate steps; the guard attached to an item decrements the counter when
    the item is dropped, after its answer or when it is discarded. */
module Drain {
  import opened Common

  datatype Stage =
    | New
    | Found     // holds the queue's sender and counter
    | Counted   // in the counter, not yet pushed
    | Refused   // the queue was full; the item is about to be dropped
    | Queued
    | Dispatched
    | Settled   // answered or discarded; its guard is about to drop
    | Done

  /** `ok`: its `try_submit` has returned Ok. */
  datatype Request = Request(stage: Stage, ok: bool)

  datatype State = State(registered: bool, counter: nat, requests: seq<Request>, promised: set<nat>)

  datatype Step =
    | Find(r: nat) | Count(r: nat) | Push(r: nat) | DropRefused(r: nat) | ReturnOk(r: nat)
    | Dispatch(r: nat) | Settle(r: nat) | DropGuard(r: nat) | BeginDrain

  predicate Live(s: Stage) { s.Counted? || s.Refused? || s.Queued? || s.Dispatched? || s.Settled? }

  predicate Pushed(s: Stage) { s.Queued? || s.Dispatched? || s.Settled? || s.Done? }

  ghost function Guards(s: State): set<nat> { set r | 0 <= r < |s.requests| && Live(s.requests[r].stage) }

  ghost function Queue(s: State): set<nat> { set r | 0 <= r < |s.requests| && s.requests[r].stage.Queued? }

  ghost function Promised(s: State): set<nat> { set r | 0 <= r < |s.requests| && s.requests[r].ok }

  function At(s: State, r: nat, to: Stage): State
    requires r < |s.requests|
  {
    s.(requests := s.requests[r := s.requests[r].(stage := to)])
  }

  /** A step that is not enabled does nothing. Beginning a drain takes the queue out of the registry and
      remembers the requests accepted so far. */
  ghost function Next(cap: nat, s: State, step: Step): State {
    if step.BeginDrain? then s.(registered := false, promised := if s.registered then Promised(s) else s.promised)
    else if step.r >= |s.requests| then s
    else
      var r, stage := step.r, s.requests[step.r].stage;
      match step
      case Find(_) => if stage.New? && s.registered then At(s, r, Found) else s
      case Count(_) => if stage.Found? then At(s, r, Counted).(counter := s.counter + 1) else s
      case Push(_) => if stage.Counted? then At(s, r, if |Queue(s)| < cap then Queued else Refused) else s
      case DropRefused(_) => if stage.Refused? && s.counter > 0 then At(s, r, Done).(counter := s.counter - 1) else s
      case ReturnOk(_) => if Pushed(stage) then s.(requests := s.requests[r := s.requests[r].(ok := true)]) else s
      case Dispatch(_) => if stage.Queued? then At(s, r, Dispatched) else s
      case Settle(_) => if stage.Queued? || stage.Dispatched? then At(s, r, Settled) else s
      case DropGuard(_) => if stage.Settled? && s.counter > 0 then At(s, r, Done).(counter := s.counter - 1) else s
  }

  ghost function Exec(cap: nat, s: State, steps: seq<Step>): State {
    if steps == [] then s else Next(cap, Exec(cap, s, steps[..|steps| - 1]), steps[|steps| - 1])
  }

  function Initial(n: nat): State { State(true, 0, seq(n, _ => Request(New, false)), {}) }

  ghost predicate Inv(cap: nat, s: State) {
    && s.counter == |Guards(s)|
    && |Queue(s)| <= cap
    && (forall r | 0 <= r < |s.requests| && s.requests[r].ok :: Pushed(s.requests[r].stage))
    && (forall r | r in s.promised :: r < |s.requests| && s.requests[r].ok)
  }

  lemma StepKeepsCounts(cap: nat, s: State, step: Step)
    requires s.counter == |Guards(s)| && |Queue(s)| <= cap
    ensures var t := Next(cap, s, step); t.counter == |Guards(t)| && |Queue(t)| <= cap
  {
    var t := Next(cap, s, step);
    if step.BeginDrain? || step.r >= |s.requests| {
      assert Guards(t) == Guards(s) && Queue(t) == Queue(s);
    } else {
      SizesDiffer(Guards(s), Guards(t), step.r);
      SizesDiffer(Queue(s), Queue(t), step.r);
      if step.r in Guards(s) {
        SubsetSize({step.r}, Guards(s));
      }
    }
  }

  lemma StepKeepsInv(cap: nat, s: State, step: Step)
    requires Inv(cap, s)
    ensures Inv(cap, Next(cap, s, step))
  {
    StepKeepsCounts(cap, s, step);
  }

  lemma {:induction false} ExecKeepsInv(cap: nat, s: State, steps: seq<Step>)
    requires Inv(cap, s)
    ensures Inv(cap, Exec(cap, s, steps))
  {
    if steps != [] {
      ExecKeepsInv(cap, s, steps[..|steps| - 1]);
      StepKeepsInv(cap, Exec(cap, s, steps[..|steps| - 1]), steps[|steps| - 1]);
    }
  }

  lemma InitialInv(cap: nat, n: nat)
    ensures Inv(cap, Initial(n))
  {
    assert Guards(Initial(n)) == {} && Queue(Initial(n)) == {};
  }

  // ----- Theorems over every interleaving -----

  /** The counter is the number of counted requests whose guard is still live, the queue-full path included;
      so whenever it reads zero, every request accepted by then, in particular before the drain began, is done. */
  lemma DrainAccounting(cap: nat, n: nat, steps: seq<Step>)
    ensures var s := Exec(cap, Initial(n), steps);
            && s.counter == |Guards(s)| && |Queue(s)| <= cap
            && (s.counter == 0 ==>
                  && (forall r | 0 <= r < |s.requests| && s.requests[r].ok :: s.requests[r].stage.Done?)
                  && (forall r | r in s.promised :: r < |s.requests| && s.requests[r].stage.Done?))
  {
    InitialInv(cap, n);
    ExecKeepsInv(cap, Initial(n), steps);
    var s := Exec(cap, Initial(n), steps);
    if s.counter == 0 {
      assert Guards(s) == {};
      forall r | 0 <= r < |s.requests| ensures !Live(s.requests[r].stage) {
        assert r !in Guards(s);
      }
    }
  }

  /** Between looking the queue up and being counted, a submitter is invisible to the drain. */
  ghost predicate Unseen(s: State) { exists r | 0 <= r < |s.requests| :: s.requests[r].stage.Found? }

  /** Nothing is in flight and nothing can come. */
  ghost predicate Quiescent(s: State) {
    && !s.registered && !Unseen(s)
    && forall r | 0 <= r < |s.requests| :: s.requests[r].stage.New? || s.requests[r].stage.Done?
  }

  lemma {:induction false} QuiescentForever(cap: nat, s: State, steps: seq<Step>)
    requires Quiescent(s)
    ensures Quiescent(Exec(cap, s, steps))
  {
    if steps != [] {
      QuiescentForever(cap, s, steps[..|steps| - 1]);
    }
  }

  lemma IdleIsQuiescent(cap: nat, s: State)
    requires Inv(cap, s) && !s.registered && s.counter == 0 && !Unseen(s)
    ensures Quiescent(s)
  {
    assert Guards(s) == {};
    forall r | 0 <= r < |s.requests| ensures s.requests[r].stage.New? || s.requests[r].stage.Done? {
      assert r !in Guards(s);
    }
  }

  lemma UnseenIsQueued(cap: nat, s: State, r: nat)
    requires cap >= 1 && Inv(cap, s) && s.counter == 0 && r < |s.requests| && s.requests[r].stage.Found?
    ensures r in Queue(Exec(cap, s, [Count(r), Push(r)]))
  {
    assert Guards(s) == {} && Queue(s) <= Guards(s);
    var one := Next(cap, s, Count(r));
    assert Queue(one) == {};
    assert [Count(r), Push(r)][..1] == [Count(r)] && [Count(r)][..0] == [];
    assert Exec(cap, s, [Count(r)]) == one;
  }

  /** A drain that observes zero is final exactly when no submitter was still unseen: otherwise that one may be
      queued, and accepted, after the drain was reported complete. */
  lemma IdleIsFinal(cap: nat, n: nat, steps: seq<Step>)
    requires cap >= 1
    requires var s := Exec(cap, Initial(n), steps); !s.registered && s.counter == 0
    ensures var s := Exec(cap, Initial(n), steps);
            (forall more :: Queue(Exec(cap, s, more)) == {}) <==> !Unseen(s)
  {
    var s := Exec(cap, Initial(n), steps);
    InitialInv(cap, n);
    ExecKeepsInv(cap, Initial(n), steps);
    if Unseen(s) {
      var r :| 0 <= r < |s.requests| && s.requests[r].stage.Found?;
      UnseenIsQueued(cap, s, r);
      assert r in Queue(Exec(cap, s, [Count(r), Push(r)]));
    } else {
      IdleIsQuiescent(cap, s);
      forall more ensures Queue(Exec(cap, s, more)) == {} {
        QuiescentForever(cap, s, more);
      }
    }
  }

  /** Such a drain occurs: the submitter looks the queue up, the drain begins and reads zero, and the submitter is
      then queued and told Ok. */
  lemma DrainMissesSubmitter(cap: nat)
    requires cap >= 1
    ensures var s := Exec(cap, Initial(1), [Find(0), BeginDrain]);
            && !s.registered && s.counter == 0 && Unseen(s)
            && (var t := Exec(cap, s, [Count(0), Push(0), ReturnOk(0)]);
                t.requests == [Request(Queued, true)] && t.counter == 1)
  {
    var s0 := Initial(1);
    var s1 := Next(cap, s0, Find(0));
    var s := Next(cap, s1, BeginDrain);
    assert [Find(0), BeginDrain][..1] == [Find(0)] && [Find(0)][..0] == [];
    assert Exec(cap, s0, []) == s0 && Exec(cap, s0, [Find(0)]) == s1 && Exec(cap, s0, [Find(0), BeginDrain]) == s;
    assert s.requests[0].stage.Found?;
    var t1 := Next(cap, s, Count(0));
    assert Queue(t1) == {};
    var t2 := Next(cap, t1, Push(0));
    assert [Count(0), Push(0), ReturnOk(0)][..2] == [Count(0), Push(0)];
    assert [Count(0), Push(0)][..1] == [Count(0)] && [Count(0)][..0] == [];
    assert Exec(cap, s, []) == s && Exec(cap, s, [Count(0)]) == t1 && Exec(cap, s, [Count(0), Push(0)]) == t2;
  }
}
