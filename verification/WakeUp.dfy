/** The wake-up and close protocol of the priority channel, one atomic operation per step.

    Pushing and notifying are two steps of a producer, and so are decrementing the sender
    count and notifying the close; the consumer pops, loads the sender count and parks in
    three. `notify_one` wakes a parked consumer or leaves a permit that the next park takes
    instead of parking. The collector's timer may cancel a parked receive. */
module WakeUp {
  import opened Common

  /** A producer handle; `Pushed` and `LastGone` still owe the consumer a notify. */
  datatype Handle = Live | Pushed | LastGone | Gone

  datatype Consumer = AtPop | AtLoad | AtPark | Parked | Closed

  /** `sincePop`: pushes since the consumer last popped. */
  datatype State = State(heap: nat, senders: nat, permit: bool, consumer: Consumer, handles: seq<Handle>, sincePop: nat)

  datatype Step = Push(p: nat) | Notify(p: nat) | Clone(p: nat) | Drop(p: nat) | Pop | Load | Park | Cancel

  const Initial := State(0, 1, false, AtPop, [Live], 0)

  predicate Owes(h: Handle) { h.Pushed? || h.LastGone? }

  predicate Holds(h: Handle) { h.Live? || h.Pushed? }

  /** A step that is not enabled does nothing. */
  function Next(cap: nat, s: State, step: Step): State {
    match step
    case Push(p) =>
      if p < |s.handles| && s.handles[p].Live? && s.heap < cap
      then s.(heap := s.heap + 1, handles := s.handles[p := Pushed], sincePop := s.sincePop + 1) else s
    case Notify(p) =>
      if p < |s.handles| && Owes(s.handles[p]) then
        var t := s.(handles := s.handles[p := if s.handles[p].Pushed? then Live else Gone]);
        if s.consumer.Parked? then t.(consumer := AtPop) else t.(permit := true)
      else s
    case Clone(p) =>
      if p < |s.handles| && s.handles[p].Live?
      then s.(senders := s.senders + 1, handles := s.handles + [Live]) else s
    case Drop(p) =>
      if p < |s.handles| && s.handles[p].Live? && s.senders > 0
      then s.(senders := s.senders - 1, handles := s.handles[p := if s.senders == 1 then LastGone else Gone]) else s
    case Pop =>
      if !s.consumer.AtPop? then s
      else if s.heap > 0 then s.(heap := s.heap - 1, sincePop := 0)
      else s.(consumer := AtLoad, sincePop := 0)
    case Load => if s.consumer.AtLoad? then s.(consumer := if s.senders == 0 then Closed else AtPark) else s
    case Park =>
      if !s.consumer.AtPark? then s
      else if s.permit then s.(permit := false, consumer := AtPop)
      else s.(consumer := Parked)
    case Cancel => if s.consumer.Parked? then s.(consumer := AtPop) else s
  }

  ghost function Holders(s: State): set<nat> { set p | 0 <= p < |s.handles| && Holds(s.handles[p]) }

  ghost predicate NotifyOwed(s: State) { exists p | 0 <= p < |s.handles| :: Owes(s.handles[p]) }

  /** There is something for the consumer to see. */
  predicate WorkWaiting(s: State) { s.heap > 0 || s.senders == 0 }

  ghost predicate Inv(s: State) {
    && s.senders == |Holders(s)|
    && (s.consumer.Parked? ==> !s.permit)
    && (s.consumer.AtLoad? && s.heap > 0 ==> s.permit || NotifyOwed(s))
    && (s.consumer.AtPark? && WorkWaiting(s) ==> s.permit || NotifyOwed(s))
    && (s.consumer.Parked? && WorkWaiting(s) ==> NotifyOwed(s))
    && (s.consumer.AtLoad? ==> s.heap == s.sincePop)
    && (s.consumer.Closed? ==> s.senders == 0)
  }

  lemma StepKeepsSenders(cap: nat, s: State, step: Step)
    requires s.senders == |Holders(s)|
    ensures Next(cap, s, step).senders == |Holders(Next(cap, s, step))|
  {
    var t := Next(cap, s, step);
    match step
    case Push(p) => SizesDiffer(Holders(s), Holders(t), p);
    case Notify(p) => SizesDiffer(Holders(s), Holders(t), p);
    case Clone(p) => SizesDiffer(Holders(s), Holders(t), |s.handles|);
    case Drop(p) => SizesDiffer(Holders(s), Holders(t), p);
    case _ => assert Holders(t) == Holders(s);
  }

  lemma OwedPersists(s: State, t: State, p: nat)
    requires NotifyOwed(s) && |t.handles| >= |s.handles|
    requires forall q | 0 <= q < |s.handles| && q != p :: t.handles[q] == s.handles[q]
    requires p < |s.handles| ==> !Owes(s.handles[p])
    ensures NotifyOwed(t)
  {
    var q :| 0 <= q < |s.handles| && Owes(s.handles[q]);
    assert Owes(t.handles[q]);
  }

  lemma StepKeepsInv(cap: nat, s: State, step: Step)
    requires Inv(s)
    ensures Inv(Next(cap, s, step))
  {
    StepKeepsSenders(cap, s, step);
    var t := Next(cap, s, step);
    match step
    case Push(p) =>
      if t != s {
        assert Owes(t.handles[p]);
      }
    case Notify(p) =>
    case Clone(p) =>
      assert t != s ==> p in Holders(s);
      if t != s && NotifyOwed(s) {
        OwedPersists(s, t, p);
      }
    case Drop(p) =>
      if t != s && NotifyOwed(s) {
        OwedPersists(s, t, p);
      }
      if t != s && t.senders == 0 {
        assert Owes(t.handles[p]);
      }
    case _ =>
      assert t.handles == s.handles;
  }

  ghost function Exec(cap: nat, steps: seq<Step>): State {
    if steps == [] then Initial else Next(cap, Exec(cap, steps[..|steps| - 1]), steps[|steps| - 1])
  }

  lemma {:induction false} ExecKeepsInv(cap: nat, steps: seq<Step>)
    ensures Inv(Exec(cap, steps))
  {
    if steps == [] {
      assert Holders(Initial) == {0};
    } else {
      ExecKeepsInv(cap, steps[..|steps| - 1]);
      StepKeepsInv(cap, Exec(cap, steps[..|steps| - 1]), steps[|steps| - 1]);
    }
  }

  // ----- Theorems over every interleaving -----

  /** A parked consumer with an item pending or no sender left is owed a notify, and any owed notify wakes it. */
  lemma NoLostWakeUp(cap: nat, steps: seq<Step>)
    ensures var s := Exec(cap, steps);
            && (s.consumer.Parked? && WorkWaiting(s) ==> NotifyOwed(s))
            && (s.consumer.Parked? ==> forall p | 0 <= p < |s.handles| && Owes(s.handles[p]) ::
                                         Next(cap, s, Notify(p)).consumer.AtPop?)
  {
    ExecKeepsInv(cap, steps);
  }

  /** `None` with nothing between the empty pop and the load means closed and drained. */
  lemma UninterruptedNoneIsDrained(cap: nat, steps: seq<Step>)
    ensures var s := Exec(cap, steps);
            var t := Next(cap, Next(cap, s, Pop), Load);
            s.consumer.AtPop? && t.consumer.Closed? ==> t.heap == 0 && t.senders == 0 && Holders(t) == {}
  {
    ExecKeepsInv(cap, steps);
    var s := Exec(cap, steps);
    StepKeepsInv(cap, s, Pop);
    StepKeepsInv(cap, Next(cap, s, Pop), Load);
  }

  /** In general `None` leaves items behind exactly when a push fell between the pop and the load,
      and what is left behind is what was pushed there. */
  lemma NoneLosesExactlyLatePushes(cap: nat, steps: seq<Step>)
    requires var s := Exec(cap, steps); s.consumer.AtLoad? && s.senders == 0
    ensures var s := Exec(cap, steps);
            var t := Next(cap, s, Load);
            t.consumer.Closed? && t.heap == s.sincePop
  {
    ExecKeepsInv(cap, steps);
  }

  lemma ClosedStep(cap: nat, s: State, step: Step)
    requires Inv(s) && s.consumer.Closed?
    ensures var t := Next(cap, s, step); t.consumer.Closed? && t.heap == s.heap
  {
    assert forall p | 0 <= p < |s.handles| && Holds(s.handles[p]) :: p in Holders(s);
  }

  /** Whatever happens after the close, nothing is delivered or added. */
  lemma {:induction false} ClosedIsFinal(cap: nat, steps: seq<Step>, more: seq<Step>)
    requires Exec(cap, steps).consumer.Closed?
    ensures var t := Exec(cap, steps + more);
            t.consumer.Closed? && t.senders == 0 && t.heap == Exec(cap, steps).heap
  {
    ExecKeepsInv(cap, steps + more);
    if more == [] {
      assert steps + more == steps;
    } else {
      var before := more[..|more| - 1];
      ClosedIsFinal(cap, steps, before);
      ExecKeepsInv(cap, steps + before);
      assert (steps + more)[..|steps + more| - 1] == steps + before;
      ClosedStep(cap, Exec(cap, steps + before), more[|more| - 1]);
    }
  }

  /** Such a run exists: the last sender pushes and drops in that gap, and its accepted item is never delivered. */
  lemma LatePushIsLost(cap: nat)
    requires cap >= 1
    ensures var s := Exec(cap, [Pop, Push(0), Notify(0), Drop(0), Load]);
            s.consumer.Closed? && s.senders == 0 && s.heap == 1
  {
    var all := [Pop, Push(0), Notify(0), Drop(0), Load];
    assert all[..4] == [Pop, Push(0), Notify(0), Drop(0)];
    assert all[..4][..3] == [Pop, Push(0), Notify(0)];
    assert all[..4][..3][..2] == [Pop, Push(0)];
    assert all[..4][..3][..2][..1] == [Pop];
    assert all[..4][..3][..2][..1][..0] == [];
    assert Exec(cap, []) == Initial;
    var s1 := Exec(cap, [Pop]);
    assert s1 == Next(cap, Initial, Pop);
    var s2 := Exec(cap, [Pop, Push(0)]);
    assert s2.handles == [Pushed] && s2.heap == 1;
    var s3 := Exec(cap, [Pop, Push(0), Notify(0)]);
    assert s3.handles == [Live];
    var s4 := Exec(cap, [Pop, Push(0), Notify(0), Drop(0)]);
    assert s4.senders == 0 && s4.consumer == AtLoad;
  }
}
