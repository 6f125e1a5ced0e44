/** Submitting a request: the gates before acceptance, the in-flight count, and the push. */
module Submit {
  import opened Common
  import opened Outlier
  import opened Pickers
  import opened PriorityChannel

  datatype QueueError = NotFound | Full | InvalidWorker | NoLiveWorkers

  /** What `try_submit` reads off an item: its pin and its priority header. */
  datatype Request = Request(item: nat, pin: Option<nat>, priority: Option<int>)

  /** A pin must name a worker that exists and is neither ejected, dead nor recycling. */
  ghost predicate BadPin(cfg: Config, f: Fleet, workers: nat, pin: Option<nat>, now: nat) {
    pin.Some? && (pin.value >= workers || HealthOf(cfg, f, pin.value, now) != Health(false, false, false))
  }

  /** A pin is refused exactly when it is out of range or names a slot that is dead, recycling, or ejected with its
      backoff still to run. */
  lemma BadPinMeans(cfg: Config, f: Fleet, workers: nat, pin: nat, now: nat)
    requires workers == |f.slots|
    ensures BadPin(cfg, f, workers, Some(pin), now) <==>
              || pin >= workers
              || f.slots[pin].dead || f.slots[pin].recycling
              || (f.slots[pin].Open() && now < f.slots[pin].ejected.value.at + DoublingWait(cfg, f.slots[pin].series))
    ensures !BadPin(cfg, f, workers, None, now)
  {
    if pin < workers {
      BackoffDoubles(cfg, f.slots[pin].series);
    }
  }

  ghost predicate AllDead(f: Fleet) { f.slots != [] && forall i | 0 <= i < |f.slots| :: f.slots[i].dead }

  /** The gates in the order they are checked; `None` lets the request through to the channel. */
  ghost function Gate(registered: bool, cfg: Config, f: Fleet, workers: nat, r: Request, now: nat): Option<QueueError> {
    if !registered then Some(NotFound)
    else if BadPin(cfg, f, workers, r.pin, now) then Some(InvalidWorker)
    else if AllDead(f) then Some(NoLiveWorkers)
    else None
  }

  /** One model version's queue. */
  class VersionQueue {
    const channel: Channel
    const outlier: OutlierState
    const workers: nat
    var registered: bool
    var inflight: nat

    constructor (channel: Channel, outlier: OutlierState, workers: nat)
      ensures this.channel == channel && this.outlier == outlier && this.workers == workers
      ensures registered && inflight == 0
    {
      this.channel := channel;
      this.outlier := outlier;
      this.workers := workers;
      registered := true;
      inflight := 0;
    }

    method AllWorkersDead() returns (all: bool)
      ensures all <==> AllDead(outlier.View())
    {
      all := outlier.slots.Length > 0;
      for i := 0 to outlier.slots.Length
        invariant all <==> outlier.slots.Length > 0 && forall j | 0 <= j < i :: outlier.slots[j].dead
      {
        if !outlier.slots[i].dead {
          all := false;
        }
      }
    }

    method CheckPin(pin: Option<nat>, now: nat) returns (bad: bool)
      modifies outlier.slots
      ensures bad <==> BadPin(outlier.cfg, old(outlier.View()), workers, pin, now)
      ensures outlier.claims == old(outlier.claims)
      ensures forall n: nat :: Snapshot(outlier.cfg, outlier.View(), n, now) ==
                Snapshot(outlier.cfg, old(outlier.View()), n, now)
      ensures AllDead(outlier.View()) <==> AllDead(old(outlier.View()))
    {
      if pin.None? {
        return false;
      }
      var w := pin.value;
      if w >= workers {
        return true;
      }
      var ejected := outlier.IsEjected(w, now);
      forall n: nat
        ensures Snapshot(outlier.cfg, outlier.View(), n, now) == Snapshot(outlier.cfg, old(outlier.View()), n, now)
      {
        ProbingKeepsSnapshot(outlier.cfg, old(outlier.View()), w, n, now);
      }
      ProbingKeepsSnapshot(outlier.cfg, old(outlier.View()), w, 0, now);
      ApplyFrame(outlier.cfg, old(outlier.View()), IsEjected(w), now);
      assert w < outlier.slots.Length ==>
        && outlier.slots[w].dead == old(outlier.slots[w].dead)
        && outlier.slots[w].recycling == old(outlier.slots[w].recycling);
      assert forall i | 0 <= i < outlier.slots.Length ::
        outlier.View().slots[i].dead == old(outlier.View()).slots[i].dead;
      bad := ejected || (w < outlier.slots.Length && (outlier.slots[w].dead || outlier.slots[w].recycling));
    }

    /** Accepts the request exactly when no gate rejects it and the channel has room. Only an accepted request is
        counted, and what a later selection sees of the fleet is untouched. */
    method TrySubmit(r: Request, now: nat) returns (error: Option<QueueError>)
      requires channel.Valid()
      modifies `inflight, channel, outlier.slots
      ensures channel.Valid()
      ensures var gate := Gate(registered, outlier.cfg, old(outlier.View()), workers, r, now);
              error == if gate.Some? then gate else if |old(channel.heap)| >= channel.cap then Some(Full) else None
      ensures error == Some(NotFound) <==> !registered
      ensures error == Some(InvalidWorker) <==>
                registered && BadPin(outlier.cfg, old(outlier.View()), workers, r.pin, now)
      ensures error == Some(NoLiveWorkers) <==>
                && registered && !BadPin(outlier.cfg, old(outlier.View()), workers, r.pin, now)
                && AllDead(old(outlier.View()))
      ensures error.None? ==>
                && inflight == old(inflight) + 1
                && Step(channel.cap, old(channel.log), PriorityChannel.Submit(r.priority, r.item), channel.log)
      ensures error.Some? ==> inflight == old(inflight) && channel.log == old(channel.log)
      ensures forall n: nat :: Snapshot(outlier.cfg, outlier.View(), n, now) ==
                Snapshot(outlier.cfg, old(outlier.View()), n, now)
    {
      if !registered {
        return Some(NotFound);
      }
      var bad := CheckPin(r.pin, now);
      if bad {
        return Some(InvalidWorker);
      }
      var dead := AllWorkersDead();
      if dead {
        return Some(NoLiveWorkers);
      }
      inflight := inflight + 1;
      var accepted := channel.TrySend(r.item, r.priority);
      if accepted {
        return None;
      }
      // The refused item is dropped with its guard, which takes it off the count.
      inflight := inflight - 1;
      return Some(Full);
    }
  }
}
