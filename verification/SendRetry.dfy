/** Sending a batch to a worker and retrying elsewhere.

    The outside world is a sequence of turns, one per attempt: what the sequence registry
    remembers, when the worker is chosen, the reply or failure it produces and when, and the
    calls other tasks make on the outlier state in the meantime. `AfterAttempt` says what an
    attempt does to the outlier state (the probes of its selection, then its score) and `Trace`
    what the attempts of one sending do; the methods are proved to do exactly that. */
module SendRetry {
  import Budget
  import opened Common
  import opened Outlier
  import opened Pickers
  import opened Rendezvous
  import opened Replies

  /** A call another task makes on the outlier state. */
  datatype Call = Call(op: Op, now: nat)

  datatype Turn = Turn(registry: map<string, nat>, now: nat, reply: Reply, meanwhile: seq<Call>, done: nat)

  // ----- What it means for the fleet -----

  function Pins(batch: seq<Item>): seq<Option<nat>> {
    seq(|batch|, k requires 0 <= k < |batch| => batch[k].pin)
  }

  function KeysOf(batch: seq<Item>): seq<Keys> { seq(|batch|, k requires 0 <= k < |batch| => batch[k].keys) }

  predicate Keyed(keys: seq<Keys>) { exists k | k in keys :: RoutingKey(k).Some? }

  predicate AllGone(f: Fleet) { forall i | 0 <= i < |f.slots| :: f.slots[i].dead }

  function EventOf(f: Fleet, turn: Turn): Event { if AllGone(f) then Gated else Replied(turn.reply) }

  ghost function HealthAt(cfg: Config, f: Fleet, now: nat): seq<Health> { Snapshot(cfg, f, |f.slots|, now) }

  /** The slots the selection of one attempt probes. */
  ghost function AttemptProbes(cfg: Config, f: Fleet, batch: seq<Item>, turn: Turn, exclude: seq<nat>): set<nat> {
    ChooseProbes(HealthAt(cfg, f, turn.now), exclude, Pins(batch), Keyed(KeysOf(batch)))
  }

  /** What other tasks do to the outlier state. */
  ghost function Meanwhile(cfg: Config, f: Fleet, calls: seq<Call>): (g: Fleet)
    ensures |g.slots| == |f.slots|
  {
    if calls == [] then f
    else
      var last := calls[|calls| - 1];
      Apply(cfg, Meanwhile(cfg, f, calls[..|calls| - 1]), last.op, last.now).0
  }

  /** One attempt's score put down to the worker it asked. */
  ghost function Scored(cfg: Config, f: Fleet, score: Score, worker: Option<nat>, now: nat): (g: Fleet)
    ensures |g.slots| == |f.slots|
  {
    if worker.None? || score.Unscored? then f
    else Apply(cfg, f, if score.Good? then RecordSuccess(worker.value) else RecordError(worker.value), now).0
  }

  /** One attempt on `batch`: the selection probes, other tasks go on while the worker is awaited, the score is
      recorded. */
  ghost function AfterAttempt(cfg: Config, f: Fleet, batch: seq<Item>, turn: Turn, exclude: seq<nat>,
                              worker: Option<nat>)
    : (g: Fleet)
    requires batch != []
    ensures |g.slots| == |f.slots|
  {
    if EventOf(f, turn).Gated? then f
    else
      var probed := Probed(cfg, f, AttemptProbes(cfg, f, batch, turn, exclude), turn.now);
      var awaited := Meanwhile(cfg, probed, turn.meanwhile);
      Scored(cfg, awaited, Settle(batch, Replied(turn.reply)).score, worker, turn.done)
  }

  lemma {:induction false} MeanwhileFrame(cfg: Config, f: Fleet, calls: seq<Call>, j: nat)
    requires j < |f.slots| && forall c | c in calls :: c.op.i != j
    ensures var g := Meanwhile(cfg, f, calls); |g.slots| == |f.slots| && g.slots[j] == f.slots[j]
  {
    if calls != [] {
      var init, last := calls[..|calls| - 1], calls[|calls| - 1];
      assert last in calls && forall c | c in init :: c in calls;
      MeanwhileFrame(cfg, f, init, j);
      ApplyFrame(cfg, Meanwhile(cfg, f, init), last.op, last.now);
    }
  }

  /** An attempt that asks `w` records its score on a slot that was at most probed, when no other task touches it. */
  lemma AskedSlot(cfg: Config, f: Fleet, batch: seq<Item>, turn: Turn, exclude: seq<nat>, w: nat) returns (g: Fleet)
    requires batch != [] && w < |f.slots| && !AllGone(f) && forall c | c in turn.meanwhile :: c.op.i != w
    ensures |g.slots| == |f.slots|
    ensures g.slots[w] == if w in AttemptProbes(cfg, f, batch, turn, exclude) then ProbedSlot(cfg, f.slots[w], turn.now)
                          else f.slots[w]
    ensures AfterAttempt(cfg, f, batch, turn, exclude, Some(w)) ==
              Scored(cfg, g, Settle(batch, Replied(turn.reply)).score, Some(w), turn.done)
  {
    var probed := Probed(cfg, f, AttemptProbes(cfg, f, batch, turn, exclude), turn.now);
    MeanwhileFrame(cfg, probed, turn.meanwhile, w);
    g := Meanwhile(cfg, probed, turn.meanwhile);
  }

  /** From `s`, open with its backoff up, to `t`: closed exactly by a success and reopened one step further by a failure
      if it was let a probe through, and left open on its old series otherwise. */
  predicate ProbeDecided(s: Slot, t: Slot, probed: bool, failed: bool, faulty: bool, now: nat)
    requires s.Open()
  {
    if !probed then t.ejected == s.ejected && t.series == s.series
    else if failed then t.ejected == Some(Ejection(now, false)) && t.series == s.series + 1 && t.errors == 0
    else if faulty then t.ejected == Some(Ejection(s.ejected.value.at, true)) && t.series == s.series
    else t.ejected.None? && t.series == 0 && t.errors == 0 && t.kills == 0
  }

  lemma ScoreDecidesProbe(cfg: Config, s: Slot, probed: bool, g: Fleet, score: Score, w: nat, then_: nat, now: nat)
    requires s.Open() && then_ - s.ejected.value.at >= Backoff(cfg, s.series)
    requires w < |g.slots| && g.slots[w] == if probed then ProbedSlot(cfg, s, then_) else s
    ensures ProbeDecided(s, Scored(cfg, g, score, Some(w), now).slots[w], probed, score.Bad?, score.Unscored?, now)
  {
  }

  /** The result a circuit breaker is for. A slot whose backoff is up when it is asked closes its circuit exactly by a
      served batch and reopens it one step further by a failed one, provided the selection asked about it; a slot
      taken unasked stays open on its old series whatever comes back. */
  lemma ServedProbeCloses(cfg: Config, f: Fleet, batch: seq<Item>, turn: Turn, exclude: seq<nat>, w: nat)
    requires batch != [] && w < |f.slots| && !AllGone(f) && forall c | c in turn.meanwhile :: c.op.i != w
    requires f.slots[w].Open() && turn.now - f.slots[w].ejected.value.at >= Backoff(cfg, f.slots[w].series)
    ensures ProbeDecided(f.slots[w], AfterAttempt(cfg, f, batch, turn, exclude, Some(w)).slots[w],
                         w in AttemptProbes(cfg, f, batch, turn, exclude),
                         WorkerFailed(batch, turn.reply), Blameless(Replied(turn.reply)), turn.done)
  {
    ScoreFollowsReply(batch, Replied(turn.reply));
    var probed := w in AttemptProbes(cfg, f, batch, turn, exclude);
    var score := Settle(batch, Replied(turn.reply)).score;
    var g := AskedSlot(cfg, f, batch, turn, exclude, w);
    ScoreDecidesProbe(cfg, f.slots[w], probed, g, score, w, turn.now, turn.done);
  }

  /** The fleet the answer of an attempt meets: probed, and changed by whatever other tasks did meanwhile. */
  ghost function Awaited(cfg: Config, f: Fleet, batch: seq<Item>, turn: Turn, exclude: seq<nat>): (g: Fleet)
    ensures |g.slots| == |f.slots|
  {
    Meanwhile(cfg, Probed(cfg, f, AttemptProbes(cfg, f, batch, turn, exclude), turn.now), turn.meanwhile)
  }

  /** From `s`, a closed slot, to `t`: a failure adds one error and opens the circuit exactly at the threshold with
      room, a success clears errors and kills, and a fault of the request changes nothing. */
  ghost predicate ClosedDecided(cfg: Config, s: Slot, t: Slot, failed: bool, faulty: bool, room: bool, now: nat) {
    if failed then
      && t.errors == s.errors + 1 && t.kills == s.kills
      && t.ejected == (if 1 <= cfg.threshold <= t.errors && room then Some(Ejection(now, false)) else None)
    else if faulty then t == s
    else t.errors == 0 && t.kills == 0 && t.ejected.None?
  }

  /** What an attempt on a closed slot does to it, from the reply alone. */
  lemma AttemptOnClosedSlot(cfg: Config, f: Fleet, batch: seq<Item>, turn: Turn, exclude: seq<nat>, w: nat)
    requires batch != [] && w < |f.slots| && !AllGone(f) && forall c | c in turn.meanwhile :: c.op.i != w
    requires f.slots[w].ejected.None?
    ensures ClosedDecided(cfg, f.slots[w], AfterAttempt(cfg, f, batch, turn, exclude, Some(w)).slots[w],
                          WorkerFailed(batch, turn.reply), Blameless(Replied(turn.reply)),
                          Room(cfg, Awaited(cfg, f, batch, turn, exclude).slots, w), turn.done)
  {
    var probed := Probed(cfg, f, AttemptProbes(cfg, f, batch, turn, exclude), turn.now);
    MeanwhileFrame(cfg, probed, turn.meanwhile, w);
    ScoreFollowsReply(batch, Replied(turn.reply));
    ScoreOnClosed(cfg, Awaited(cfg, f, batch, turn, exclude), Settle(batch, Replied(turn.reply)).score, w, turn.done);
  }

  lemma ScoreOnClosed(cfg: Config, g: Fleet, score: Score, w: nat, now: nat)
    requires w < |g.slots| && g.slots[w].ejected.None?
    ensures ClosedDecided(cfg, g.slots[w], Scored(cfg, g, score, Some(w), now).slots[w], score.Bad?, score.Unscored?,
                          Room(cfg, g.slots, w), now)
  {
  }

  /** While no other task acts, the room under the cap is that of the fleet the attempt found. */
  lemma ProbesKeepRoom(cfg: Config, f: Fleet, batch: seq<Item>, turn: Turn, exclude: seq<nat>, w: nat)
    requires turn.meanwhile == []
    ensures Room(cfg, Awaited(cfg, f, batch, turn, exclude).slots, w) <==> Room(cfg, f.slots, w)
  {
    var g := Awaited(cfg, f, batch, turn, exclude);
    assert EjectedOthers(g.slots, w, |g.slots|) == EjectedOthers(f.slots, w, |f.slots|);
  }

  lemma ScoredFrame(cfg: Config, f: Fleet, score: Score, worker: Option<nat>, now: nat, j: nat)
    requires j < |f.slots| && (worker == Some(j) ==> score.Unscored?)
    ensures Scored(cfg, f, score, worker, now).slots[j] == f.slots[j]
  {
  }

  /** A slot an attempt did not ask, and no other task touches, changes at most by being let a probe through. */
  lemma BystanderSlot(cfg: Config, f: Fleet, batch: seq<Item>, turn: Turn, exclude: seq<nat>, worker: Option<nat>,
                      j: nat)
    requires batch != [] && j < |f.slots| && forall c | c in turn.meanwhile :: c.op.i != j
    requires worker == Some(j) ==> Settle(batch, Replied(turn.reply)).score.Unscored?
    ensures AtMostHalfOpened(cfg, f.slots[j], AfterAttempt(cfg, f, batch, turn, exclude, worker).slots[j], turn.now)
  {
    if !AllGone(f) {
      var probed := Probed(cfg, f, AttemptProbes(cfg, f, batch, turn, exclude), turn.now);
      ProbeOnlyHalfOpens(cfg, f.slots[j], turn.now);
      assert AtMostHalfOpened(cfg, f.slots[j], probed.slots[j], turn.now);
      MeanwhileFrame(cfg, probed, turn.meanwhile, j);
      var awaited, score := Meanwhile(cfg, probed, turn.meanwhile), Settle(batch, Replied(turn.reply)).score;
      ScoredFrame(cfg, awaited, score, worker, turn.done, j);
    }
  }

  // ----- The attempts of one sending -----

  /** One attempt made: the fleet it found, what it came to, and the worker asked. */
  datatype Visit = Visit(before: Fleet, event: Event, worker: Option<nat>)

  function EventsOf(log: seq<Visit>): (r: seq<Event>)
    ensures |r| == |log|
  {
    seq(|log|, k requires 0 <= k < |log| => log[k].event)
  }

  /** The worker an attempt is put down to when later attempts avoid it; a gated attempt counts as worker 0. */
  function Blamed(worker: Option<nat>): nat { if worker.Some? then worker.value else 0 }

  function Excluded(log: seq<Visit>): (r: seq<nat>)
    ensures |r| == |log|
  {
    seq(|log|, k requires 0 <= k < |log| => Blamed(log[k].worker))
  }

  /** A safe pick that honours a usable pin. */
  ghost predicate PickedSafely(health: seq<Health>, exclude: seq<nat>, pins: seq<Option<nat>>, w: nat) {
    Safe(health, exclude, w) && forall p: nat | AgreedPin(pins, p) && Usable(health, exclude, p) :: w == p
  }

  /** Attempt `v` follows `log`: it was still needed, asked a safely picked worker unless all were gone, and left
      `after`. */
  ghost predicate Follows(cfg: Config, batch: seq<Item>, turn: Turn, log: seq<Visit>, v: Visit, after: Fleet)
    requires batch != []
  {
    var p := Play(batch, EventsOf(log));
    && !p.Over()
    && v.event == EventOf(v.before, turn)
    && (v.worker.None? <==> v.event.Gated?)
    && (v.worker.Some? ==> PickedSafely(HealthAt(cfg, v.before, turn.now), Excluded(log), Pins(p.rest), v.worker.value))
    && after == AfterAttempt(cfg, v.before, p.rest, turn, Excluded(log), v.worker)
  }

  /** The fleet before attempt `k`, or after the last one. */
  function Found(log: seq<Visit>, last: Fleet, k: nat): Fleet { if k < |log| then log[k].before else last }

  ghost predicate StepAt(cfg: Config, batch: seq<Item>, turns: seq<Turn>, log: seq<Visit>, last: Fleet, k: nat)
    requires batch != [] && k < |log| <= |turns|
  {
    Follows(cfg, batch, turns[k], log[..k], log[k], Found(log, last, k + 1))
  }

  /** `log` lists attempts made one after the other, taking the fleet from `first` to `last`. */
  ghost predicate Trace(cfg: Config, batch: seq<Item>, turns: seq<Turn>, first: Fleet, log: seq<Visit>, last: Fleet)
    requires batch != []
  {
    && |log| <= |turns| && Found(log, last, 0) == first
    && forall k | 0 <= k < |log| :: StepAt(cfg, batch, turns, log, last, k)
  }

  lemma TraceExtends(cfg: Config, batch: seq<Item>, turns: seq<Turn>, first: Fleet, log: seq<Visit>, v: Visit,
                     after: Fleet)
    requires batch != [] && |log| < |turns| && Trace(cfg, batch, turns, first, log, v.before)
    requires Follows(cfg, batch, turns[|log|], log, v, after)
    ensures Trace(cfg, batch, turns, first, log + [v], after)
    ensures EventsOf(log + [v]) == EventsOf(log) + [v.event]
    ensures Excluded(log + [v]) == Excluded(log) + [Blamed(v.worker)]
  {
    var all := log + [v];
    forall k | 0 <= k < |all| ensures StepAt(cfg, batch, turns, all, after, k) {
      if k < |log| {
        assert StepAt(cfg, batch, turns, log, v.before, k);
        assert all[..k] == log[..k] && Found(all, after, k + 1) == Found(log, v.before, k + 1);
      } else {
        assert all[..k] == log;
      }
    }
  }

  /** While all workers live, attempts never return to a worker as long as there are others. */
  lemma RetriesVisitNewWorkers(cfg: Config, batch: seq<Item>, turns: seq<Turn>, first: Fleet, log: seq<Visit>,
                               last: Fleet, j: nat, k: nat)
    requires batch != [] && Trace(cfg, batch, turns, first, log, last)
    requires j < k < |log| <= |log[k].before.slots| && log[j].worker.Some? && log[k].worker.Some?
    requires forall i | 0 <= i < |log[k].before.slots| :: !log[k].before.slots[i].dead
    ensures log[j].worker != log[k].worker
  {
    assert StepAt(cfg, batch, turns, log, last, k);
    var n, exclude := |log[k].before.slots|, Excluded(log[..k]);
    var health := HealthAt(cfg, log[k].before, turns[k].now);
    SeqSetSize(exclude);
    var free := SmallerSetMisses(Members(exclude), n);
    assert free !in exclude && !health[free].dead;
    SafeMeans(health, exclude, log[k].worker.value);
    assert exclude[j] == log[j].worker.value;
  }

  lemma {:induction false} SeqSetSize(s: seq<nat>)
    ensures |Members(s)| <= |s|
  {
    if s != [] {
      SeqSetSize(s[1..]);
      assert Members(s) == Members(s[1..]) + {s[0]};
    }
  }

  ghost function Members(s: seq<nat>): set<nat> { set b | b in s }

  /** The score of attempt `k`. */
  ghost function ScoreOf(batch: seq<Item>, log: seq<Visit>, k: nat): Score
    requires batch != [] && k < |log|
  {
    var p := Play(batch, EventsOf(log[..k]));
    if p.rest == [] then Unscored else Settle(p.rest, log[k].event).score
  }

  lemma ScoreTells(batch: seq<Item>, log: seq<Visit>, k: nat)
    requires batch != [] && k < |log| && !Play(batch, EventsOf(log[..k])).Over()
    ensures ScoreOf(batch, log, k).Good? <==> Play(batch, EventsOf(log[..k + 1])).ok
  {
    PlayExtends(batch, EventsOf(log[..k]), log[k].event);
    assert EventsOf(log[..k + 1]) == EventsOf(log[..k]) + [log[k].event];
  }

  /** Only the last attempt made is ever scored a success, exactly when the sending succeeded. */
  lemma LastScoreTells(cfg: Config, batch: seq<Item>, turns: seq<Turn>, first: Fleet, log: seq<Visit>, last: Fleet,
                       k: nat)
    requires batch != [] && k < |log| && Trace(cfg, batch, turns, first, log, last)
    ensures ScoreOf(batch, log, k).Good? <==> k == |log| - 1 && Play(batch, EventsOf(log)).ok
  {
    assert StepAt(cfg, batch, turns, log, last, k);
    ScoreTells(batch, log, k);
    if k < |log| - 1 {
      assert StepAt(cfg, batch, turns, log, last, k + 1);
    } else {
      assert log[..k + 1] == log;
    }
  }

  /** Whether the selection of attempt `k` asks about worker `w` before taking it: it is the pin of the items left, or
      there are others and the items left carry a routing key or `w` has not failed yet. */
  ghost predicate AsksAbout(batch: seq<Item>, log: seq<Visit>, k: nat, w: nat)
    requires batch != [] && k < |log|
  {
    var rest := Play(batch, EventsOf(log[..k])).rest;
    || AgreedPin(Pins(rest), w)
    || (|log[k].before.slots| > 1 && (Keyed(KeysOf(rest)) || w !in Excluded(log[..k])))
  }

  lemma AskedIsAlive(cfg: Config, batch: seq<Item>, turns: seq<Turn>, first: Fleet, log: seq<Visit>, last: Fleet,
                     k: nat, w: nat)
    requires batch != [] && k < |log| && Trace(cfg, batch, turns, first, log, last) && log[k].worker == Some(w)
    ensures w < |log[k].before.slots| && !AllGone(log[k].before) && !log[k].before.slots[w].dead
  {
    assert StepAt(cfg, batch, turns, log, last, k);
    var f, exclude := log[k].before, Excluded(log[..k]);
    var health := HealthAt(cfg, f, turns[k].now);
    SafeMeans(health, exclude, w);
    assert exists i | 0 <= i < |health| :: !health[i].dead by {
      var i :| 0 <= i < |f.slots| && !f.slots[i].dead;
      assert !health[i].dead;
    }
  }

  /** Nothing speaks against asking worker `i`: it runs, is neither recycling nor ejected with its backoff still to run,
      and has not failed this sending yet. */
  ghost predicate Fit(cfg: Config, f: Fleet, now: nat, exclude: seq<nat>, i: nat)
    requires i < |f.slots|
  {
    var s := f.slots[i];
    && !s.dead && !s.recycling && i !in exclude
    && !(s.Open() && now < s.ejected.value.at + DoublingWait(cfg, s.series))
  }

  lemma FitIsUsable(cfg: Config, f: Fleet, now: nat, exclude: seq<nat>, i: nat)
    requires i < |f.slots|
    ensures Fit(cfg, f, now, exclude, i) <==>
              HealthAt(cfg, f, now)[i] == Health(false, false, false) && i !in exclude
  {
    BackoffDoubles(cfg, f.slots[i].series);
  }

  /** In every sending an attempt asks a fit worker whenever there is one. */
  lemma AsksFitWorker(cfg: Config, batch: seq<Item>, turns: seq<Turn>, first: Fleet, log: seq<Visit>, last: Fleet,
                      k: nat, w: nat, i: nat)
    requires batch != [] && k < |log| && Trace(cfg, batch, turns, first, log, last) && log[k].worker == Some(w)
    requires i < |log[k].before.slots| && Fit(cfg, log[k].before, turns[k].now, Excluded(log[..k]), i)
    ensures w < |log[k].before.slots| && Fit(cfg, log[k].before, turns[k].now, Excluded(log[..k]), w)
  {
    assert StepAt(cfg, batch, turns, log, last, k);
    var f, exclude := log[k].before, Excluded(log[..k]);
    var health := HealthAt(cfg, f, turns[k].now);
    FitIsUsable(cfg, f, turns[k].now, exclude, i);
    SafeMeans(health, exclude, w);
    FitIsUsable(cfg, f, turns[k].now, exclude, w);
  }

  /** The workers later attempts avoid: those asked before, and worker 0 after an attempt that could ask nobody. */
  lemma ExcludedAre(cfg: Config, batch: seq<Item>, turns: seq<Turn>, first: Fleet, log: seq<Visit>, last: Fleet, i: nat)
    requires batch != [] && Trace(cfg, batch, turns, first, log, last)
    ensures i in Excluded(log) <==>
              exists k | 0 <= k < |log| :: log[k].worker == Some(i) || (i == 0 && log[k].event.Gated?)
  {
    forall k | 0 <= k < |log|
      ensures Excluded(log)[k] == i <==> log[k].worker == Some(i) || (i == 0 && log[k].event.Gated?)
    {
      assert StepAt(cfg, batch, turns, log, last, k);
    }
  }

  /** In every sending: an attempt on a slot whose backoff is up decides its circuit, exactly when the selection asked
      about that slot first. */
  lemma AttemptDecidesCircuit(cfg: Config, batch: seq<Item>, turns: seq<Turn>, first: Fleet, log: seq<Visit>,
                              last: Fleet, k: nat, w: nat)
    requires batch != [] && k < |log| && Trace(cfg, batch, turns, first, log, last) && log[k].worker == Some(w)
    requires w < |log[k].before.slots| && forall c | c in turns[k].meanwhile :: c.op.i != w
    requires var s := log[k].before.slots[w];
             s.Open() && turns[k].now - s.ejected.value.at >= DoublingWait(cfg, s.series)
    ensures w < |Found(log, last, k + 1).slots|
    ensures var rest := Play(batch, EventsOf(log[..k])).rest;
            ProbeDecided(log[k].before.slots[w], Found(log, last, k + 1).slots[w], AsksAbout(batch, log, k, w),
                         WorkerFailed(rest, turns[k].reply), Blameless(Replied(turns[k].reply)), turns[k].done)
  {
    AskedIsAlive(cfg, batch, turns, first, log, last, k, w);
    assert StepAt(cfg, batch, turns, log, last, k);
    var f, rest, exclude := log[k].before, Play(batch, EventsOf(log[..k])).rest, Excluded(log[..k]);
    BackoffDoubles(cfg, f.slots[w].series);
    AskedIsProbed(HealthAt(cfg, f, turns[k].now), exclude, Pins(rest), Keyed(KeysOf(rest)), w);
    ServedProbeCloses(cfg, f, rest, turns[k], exclude, w);
  }

  /** In every sending: an attempt on a closed slot adds exactly one error to it when its worker failed, opening the
      circuit at the threshold with room. */
  lemma AttemptCountsFailure(cfg: Config, batch: seq<Item>, turns: seq<Turn>, first: Fleet, log: seq<Visit>,
                             last: Fleet, k: nat, w: nat)
    requires batch != [] && k < |log| && Trace(cfg, batch, turns, first, log, last) && log[k].worker == Some(w)
    requires w < |log[k].before.slots| && forall c | c in turns[k].meanwhile :: c.op.i != w
    requires log[k].before.slots[w].ejected.None?
    ensures w < |Found(log, last, k + 1).slots|
    ensures var rest := Play(batch, EventsOf(log[..k])).rest;
            var awaited := Awaited(cfg, log[k].before, rest, turns[k], Excluded(log[..k]));
            ClosedDecided(cfg, log[k].before.slots[w], Found(log, last, k + 1).slots[w],
                          WorkerFailed(rest, turns[k].reply), Blameless(Replied(turns[k].reply)),
                          Room(cfg, awaited.slots, w), turns[k].done)
  {
    AskedIsAlive(cfg, batch, turns, first, log, last, k, w);
    assert StepAt(cfg, batch, turns, log, last, k);
    AttemptOnClosedSlot(cfg, log[k].before, Play(batch, EventsOf(log[..k])).rest, turns[k], Excluded(log[..k]), w);
  }

  /** So a lone worker that no request pins stays ejected through every batch it serves. */
  lemma LoneWorkerStaysOpen(cfg: Config, batch: seq<Item>, turn: Turn, f: Fleet)
    requires batch != [] && |f.slots| == 1 && f.slots[0].Open() && !f.slots[0].dead && turn.meanwhile == []
    requires forall i | i in batch :: i.pin.None?
    ensures AfterAttempt(cfg, f, batch, turn, [], Some(0)).slots[0].ejected == f.slots[0].ejected
  {
    assert BatchDirectPin(Pins(batch)).None?;
    assert AttemptProbes(cfg, f, batch, turn, []) == {};
    ProbedNone(cfg, f, turn.now);
  }

  /** No other task touches slot `j` during the attempts. */
  ghost predicate LeftAlone(turns: seq<Turn>, j: nat) {
    forall k, c | 0 <= k < |turns| && c in turns[k].meanwhile :: c.op.i != j
  }

  lemma HalfOpenedOnce(cfg: Config, s: Slot, t: Slot, u: Slot, a: nat, b: nat, latest: nat)
    requires AtMostHalfOpened(cfg, s, t, a) && AtMostHalfOpened(cfg, t, u, b) && a <= latest && b <= latest
    ensures AtMostHalfOpened(cfg, s, u, latest)
  {
  }

  /** A sending changes no slot it never scored, except that it may let a probe through once the backoff is up. */
  lemma {:induction false} UnscoredOnlyProbed(cfg: Config, batch: seq<Item>, turns: seq<Turn>, first: Fleet,
                                              log: seq<Visit>, last: Fleet, m: nat, j: nat, latest: nat)
    requires batch != [] && Trace(cfg, batch, turns, first, log, last) && j < |first.slots| && LeftAlone(turns, j)
    requires forall k | 0 <= k < |turns| :: turns[k].now <= latest
    requires forall k | 0 <= k < |log| && log[k].worker == Some(j) :: ScoreOf(batch, log, k).Unscored?
    requires m <= |log|
    ensures var g := Found(log, last, m);
            |g.slots| == |first.slots| && AtMostHalfOpened(cfg, first.slots[j], g.slots[j], latest)
  {
    if m > 0 {
      var k := m - 1;
      UnscoredOnlyProbed(cfg, batch, turns, first, log, last, k, j, latest);
      assert StepAt(cfg, batch, turns, log, last, k);
      var rest, v := Play(batch, EventsOf(log[..k])).rest, log[k];
      assert v.worker == Some(j) ==> ScoreOf(batch, log, k).Unscored?;
      BystanderSlot(cfg, v.before, rest, turns[k], Excluded(log[..k]), v.worker, j);
      var t := Found(log, last, m).slots[j];
      HalfOpenedOnce(cfg, first.slots[j], v.before.slots[j], t, latest, turns[k].now, latest);
    }
  }

  /** Workers a sending did not ask: their errors, series and flags stay, and their circuits neither open nor close. */
  lemma ScoresStayOnAsked(cfg: Config, batch: seq<Item>, turns: seq<Turn>, first: Fleet, log: seq<Visit>, last: Fleet,
                          j: nat, latest: nat)
    requires batch != [] && Trace(cfg, batch, turns, first, log, last) && j < |first.slots| && LeftAlone(turns, j)
    requires forall k | 0 <= k < |turns| :: turns[k].now <= latest
    requires forall k | 0 <= k < |log| :: log[k].worker != Some(j)
    ensures |last.slots| == |first.slots| && AtMostHalfOpened(cfg, first.slots[j], last.slots[j], latest)
  {
    UnscoredOnlyProbed(cfg, batch, turns, first, log, last, |log|, j, latest);
  }

  predicate Blameless(e: Event) { e.Gated? || (e.reply.SingleReply? && RequestFault(e.reply.response)) }

  /** Faults of the request itself are held against no worker: a replayed malformed request counts no error and opens
      or closes no circuit anywhere. */
  lemma RequestFaultsBlameless(cfg: Config, batch: seq<Item>, turns: seq<Turn>, first: Fleet, log: seq<Visit>,
                               last: Fleet, j: nat, latest: nat)
    requires batch != [] && Trace(cfg, batch, turns, first, log, last) && j < |first.slots| && LeftAlone(turns, j)
    requires forall k | 0 <= k < |turns| :: turns[k].now <= latest
    requires forall k | 0 <= k < |log| :: Blameless(log[k].event)
    ensures |last.slots| == |first.slots| && AtMostHalfOpened(cfg, first.slots[j], last.slots[j], latest)
  {
    UnscoredOnlyProbed(cfg, batch, turns, first, log, last, |log|, j, latest);
  }

  predicate MovesTicket(op: Op) { op.ClaimRecycle? || op.Reset? || op.ReleaseRecycle? }

  lemma {:induction false} MeanwhileKeepsTickets(cfg: Config, f: Fleet, calls: seq<Call>)
    requires forall c | c in calls :: !MovesTicket(c.op)
    ensures Meanwhile(cfg, f, calls).claims == f.claims
  {
    if calls != [] {
      var init, last := calls[..|calls| - 1], calls[|calls| - 1];
      assert last in calls && forall c | c in init :: c in calls;
      MeanwhileKeepsTickets(cfg, f, init);
    }
  }

  lemma AttemptKeepsTickets(cfg: Config, f: Fleet, batch: seq<Item>, turn: Turn, exclude: seq<nat>, worker: Option<nat>)
    requires batch != [] && forall c | c in turn.meanwhile :: !MovesTicket(c.op)
    ensures AfterAttempt(cfg, f, batch, turn, exclude, worker).claims == f.claims
  {
    var probed := Probed(cfg, f, AttemptProbes(cfg, f, batch, turn, exclude), turn.now);
    MeanwhileKeepsTickets(cfg, probed, turn.meanwhile);
  }

  /** No attempt takes or returns a recycle ticket. */
  lemma {:induction false} AttemptsKeepTickets(cfg: Config, batch: seq<Item>, turns: seq<Turn>, first: Fleet,
                                               log: seq<Visit>, last: Fleet, m: nat)
    requires batch != [] && Trace(cfg, batch, turns, first, log, last) && m <= |log|
    requires forall k, c | 0 <= k < |turns| && c in turns[k].meanwhile :: !MovesTicket(c.op)
    ensures Found(log, last, m).claims == first.claims
  {
    if m > 0 {
      var k := m - 1;
      AttemptsKeepTickets(cfg, batch, turns, first, log, last, k);
      assert StepAt(cfg, batch, turns, log, last, k);
      var rest := Play(batch, EventsOf(log[..k])).rest;
      AttemptKeepsTickets(cfg, log[k].before, rest, turns[k], Excluded(log[..k]), log[k].worker);
    }
  }

  // ----- The code -----

  /** Gives every item of the batch its own entry of a batch reply. */
  method AnswerBatch(batch: seq<Item>, m: map<string, Single>) returns (sent: seq<Answer>, ok: bool)
    ensures sent == ItemAnswers(batch, m)
    ensures ok <==> AllServed(batch, m)
  {
    sent, ok := [], true;
    for k := 0 to |batch|
      invariant sent == ItemAnswers(batch, m)[..k]
      invariant ok <==> forall j | 0 <= j < k :: !ItemFailed(batch[j], m)
    {
      if ItemFailed(batch[k], m) {
        ok := false;
      }
      sent := sent + [ItemAnswer(batch[k], m)];
    }
  }

  /** What one reply does to the batch. */
  method HandleReply(batch: seq<Item>, reply: Reply) returns (s: Settled)
    requires batch != []
    ensures s == Settle(batch, Replied(reply))
  {
    match reply {
      case BatchReply(entries) =>
        var m := ResponseMap(entries);
        var sent, ok := AnswerBatch(batch, m);
        s := Settled([], sent, ok, if ok then Good else Bad, Fault(PartialBatch));
      case SingleReply(r) =>
        if RequestFault(r) {
          s := Settled(batch[..|batch| - 1], Last(batch, r), false, Unscored, Fault(RequestLevel));
        } else if r.error {
          s := Settled(batch, [], false, Bad, FromWorker(r));
        } else {
          s := Settled(batch[..|batch| - 1], Last(batch, r), true, Good, Fault(RequestLevel));
        }
      case OtherReply => s := Settled(batch, [], false, Bad, Fault(UnexpectedType));
      case TimedOut => s := Settled(batch, [], false, Bad, Fault(Timeout));
      case SendFailed => s := Settled(batch, [], false, Bad, Fault(Transport));
    }
  }

  method RecordScore(outlier: OutlierState, score: Score, w: nat, now: nat)
    modifies outlier.slots
    ensures outlier.View() == Scored(outlier.cfg, old(outlier.View()), score, Some(w), now)
  {
    match score {
      case Unscored =>
      case Good => outlier.RecordSuccess(w, now);
      case Bad => var _ := outlier.RecordError(w, now);
    }
  }

  /** Stands for the other tasks that run while a reply is awaited. */
  method OtherTasks(outlier: OutlierState, calls: seq<Call>)
    modifies outlier, outlier.slots
    ensures outlier.View() == Meanwhile(outlier.cfg, old(outlier.View()), calls)
  {
    assert calls[..|calls|] == calls;
    for k := 0 to |calls|
      invariant outlier.View() == Meanwhile(outlier.cfg, old(outlier.View()), calls[..k])
    {
      assert calls[..k + 1][..k] == calls[..k];
      OtherCall(outlier, calls[k]);
    }
  }

  method OtherCall(outlier: OutlierState, call: Call)
    modifies outlier, outlier.slots
    ensures outlier.View() == Apply(outlier.cfg, old(outlier.View()), call.op, call.now).0
  {
    match call.op {
      case RecordSuccess(i) => outlier.RecordSuccess(i, call.now);
      case RecordError(i) => var _ := outlier.RecordError(i, call.now);
      case IsEjected(i) => var _ := outlier.IsEjected(i, call.now);
      case ForceEject(i) => var _ := outlier.ForceEject(i, call.now);
      case Reset(i) => outlier.Reset(i, call.now);
      case ClaimRecycle(i) => var _ := outlier.ClaimRecycle(i, call.now);
      case ReleaseRecycle(i) => outlier.ReleaseRecycle(i, call.now);
      case MarkDead(i) => outlier.MarkDead(i, call.now);
      case RecordKill(i) => outlier.RecordKill(i, call.now);
      case ResetErrorCount(i) => outlier.ResetErrorCount(i, call.now);
    }
  }

  method AllDead(outlier: OutlierState) returns (all: bool)
    ensures all <==> AllGone(outlier.View())
  {
    all := true;
    for i := 0 to outlier.slots.Length
      invariant all <==> forall j | 0 <= j < i :: outlier.slots[j].dead
    {
      if !outlier.IsDead(i) {
        all := false;
      }
    }
  }

  /** Some selection the batch's hints allow. */
  ghost predicate Selected(loads: seq<nat>, health: seq<Health>, batch: seq<Item>, registry: map<string, nat>,
                           exclude: seq<nat>, balance: Balance, h: Hash, w: nat)
    requires |loads| == |health| > 0
  {
    exists affinity :: IsAffinity(KeysOf(batch), registry, affinity)
                       && Chosen(loads, health, exclude, Pins(batch), affinity, balance, h, w)
  }

  lemma ChosenSafely(loads: seq<nat>, health: seq<Health>, exclude: seq<nat>, pins: seq<Option<nat>>,
                     affinity: Option<Affinity>, balance: Balance, h: Hash, w: nat)
    requires |loads| == |health| > 0 && Safe(health, exclude, w)
    requires Chosen(loads, health, exclude, pins, affinity, balance, h, w)
    ensures PickedSafely(health, exclude, pins, w)
  {
    forall p: nat | AgreedPin(pins, p) && Usable(health, exclude, p) ensures w == p {
      assert Some(w) in pins && Some(p) in pins;
    }
  }

  /** Chooses the worker, probing on the way. */
  method SelectWorker(batch: seq<Item>, inflight: array<nat>, outlier: OutlierState, turn: Turn, exclude: seq<nat>,
                      balance: Balance, h: Hash) returns (w: nat)
    requires batch != [] && outlier.slots.Length == inflight.Length > 0
    modifies outlier.slots
    ensures outlier.View() ==
              Probed(outlier.cfg, old(outlier.View()),
                     AttemptProbes(outlier.cfg, old(outlier.View()), batch, turn, exclude), turn.now)
    ensures PickedSafely(old(Seen(outlier, turn.now)), exclude, Pins(batch), w)
    ensures Selected(inflight[..], old(Seen(outlier, turn.now)), batch, turn.registry, exclude, balance, h, w)
  {
    var affinity := BatchAffinity(KeysOf(batch), turn.registry);
    assert affinity.Some? <==> Keyed(KeysOf(batch));
    w := ChooseWorker(inflight[..], outlier, exclude, Pins(batch), affinity, balance, h, turn.now);
    ChosenSafely(inflight[..], old(Seen(outlier, turn.now)), exclude, Pins(batch), affinity, balance, h, w);
  }

  /** Asks worker `w` and awaits its reply; its in-flight count goes up and down around the wait. */
  method AskWorker(batch: seq<Item>, inflight: array<nat>, outlier: OutlierState, turn: Turn, w: nat)
    returns (s: Settled)
    requires batch != [] && w < inflight.Length
    modifies inflight, outlier, outlier.slots
    ensures inflight[..] == old(inflight[..])
    ensures s == Settle(batch, Replied(turn.reply))
    ensures outlier.View() ==
              Scored(outlier.cfg, Meanwhile(outlier.cfg, old(outlier.View()), turn.meanwhile), s.score, Some(w),
                     turn.done)
  {
    inflight[w] := inflight[w] + 1;
    OtherTasks(outlier, turn.meanwhile);
    s := HandleReply(batch, turn.reply);
    inflight[w] := inflight[w] - 1;
    assert inflight[..] == old(inflight[..]);
    RecordScore(outlier, s.score, w, turn.done);
  }

  /** One attempt: `worker` is the one asked, if any. */
  method DoSendBatch(batch: seq<Item>, inflight: array<nat>, outlier: OutlierState, turn: Turn, exclude: seq<nat>,
                     balance: Balance, h: Hash) returns (s: Settled, worker: Option<nat>)
    requires batch != [] && outlier.slots.Length == inflight.Length
    modifies inflight, outlier, outlier.slots
    ensures inflight[..] == old(inflight[..])
    ensures s == Settle(batch, EventOf(old(outlier.View()), turn))
    ensures outlier.View() == AfterAttempt(outlier.cfg, old(outlier.View()), batch, turn, exclude, worker)
    ensures worker.None? <==> AllGone(old(outlier.View()))
    ensures worker.Some? ==>
              var health := old(Seen(outlier, turn.now));
              && |health| > 0 && PickedSafely(health, exclude, Pins(batch), worker.value)
              && Selected(old(inflight[..]), health, batch, turn.registry, exclude, balance, h, worker.value)
  {
    var gone := AllDead(outlier);
    if inflight.Length == 0 || gone {
      return Settled(batch, [], false, Unscored, FromWorker(Single(true, 503, 0))), None;
    }
    var w := SelectWorker(batch, inflight, outlier, turn, exclude, balance, h);
    s := AskWorker(batch, inflight, outlier, turn, w);
    worker := Some(w);
  }

  method FailBatchItems(batch: seq<Item>, report: Content) returns (sent: seq<Answer>)
    ensures sent == FailAnswers(batch, report)
  {
    sent := [];
    for k := 0 to |batch|
      invariant sent == FailAnswers(batch, report)[..k]
    {
      sent := sent + [Answer(batch[k].chan, batch[k].uid, report)];
    }
  }

  /** The attempts a sending may make: one on the fast path, else `max_retries`. */
  function MaxAttempts(workers: nat, maxRetries: nat): nat {
    if workers <= 1 || maxRetries == 0 then 1 else maxRetries
  }

  /** The attempts are used up, or the last one settled the batch. */
  predicate Finished(batch: seq<Item>, events: seq<Event>, attempts: nat)
    requires batch != []
  {
    1 <= |events| <= attempts && (|events| == attempts || Play(batch, events).Over())
  }

  /** The attempts of `log` were made and left `rest` to be retried. */
  ghost predicate Underway(cfg: Config, batch: seq<Item>, turns: seq<Turn>, first: Fleet, log: seq<Visit>, last: Fleet,
                           rest: seq<Item>, sent: seq<Answer>, report: Content)
    requires batch != []
  {
    && Trace(cfg, batch, turns, first, log, last)
    && Play(batch, EventsOf(log)) == Progress(rest, sent, false, report) && rest != []
  }

  lemma UnderwayStep(cfg: Config, batch: seq<Item>, turns: seq<Turn>, first: Fleet, log: seq<Visit>, v: Visit,
                     after: Fleet, rest: seq<Item>, sent: seq<Answer>, report: Content)
    requires batch != [] && |log| < |turns| && Underway(cfg, batch, turns, first, log, v.before, rest, sent, report)
    requires Follows(cfg, batch, turns[|log|], log, v, after)
    ensures var s := Settle(rest, v.event);
            && Trace(cfg, batch, turns, first, log + [v], after)
            && Play(batch, EventsOf(log + [v])) == Progress(s.rest, sent + s.sent, s.ok, s.report)
            && (s.ok || s.rest == [] ==> Answers(batch, EventsOf(log + [v])) == sent + s.sent)
            && Excluded(log + [v]) == Excluded(log) + [Blamed(v.worker)]
  {
    TraceExtends(cfg, batch, turns, first, log, v, after);
    PlayExtends(batch, EventsOf(log), v.event);
  }

  /** The loop over attempts; `served` is the worker that finally succeeded. */
  method Attempt(batch: seq<Item>, inflight: array<nat>, outlier: OutlierState, turns: seq<Turn>, attempts: nat,
                 balance: Balance, h: Hash) returns (sent: seq<Answer>, served: Option<nat>, ghost log: seq<Visit>)
    requires batch != [] && 1 <= attempts <= |turns| && outlier.slots.Length == inflight.Length
    modifies inflight, outlier, outlier.slots
    ensures inflight[..] == old(inflight[..])
    ensures Trace(outlier.cfg, batch, turns, old(outlier.View()), log, outlier.View())
    ensures Finished(batch, EventsOf(log), attempts) && sent == Answers(batch, EventsOf(log))
    ensures served.Some? <==> Play(batch, EventsOf(log)).ok
    ensures served.Some? ==> log[|log| - 1].worker == served
  {
    sent, served, log := [], None, [];
    var rest, report, excluded := batch, Fault(Unavailable), [];
    ghost var first := outlier.View();
    for attempt := 0 to attempts
      invariant inflight[..] == old(inflight[..])
      invariant |log| == attempt && excluded == Excluded(log)
      invariant Underway(outlier.cfg, batch, turns, first, log, outlier.View(), rest, sent, report)
    {
      ghost var before := outlier.View();
      var s, w := DoSendBatch(rest, inflight, outlier, turns[attempt], excluded, balance, h);
      ghost var v := Visit(before, EventOf(before, turns[attempt]), w);
      UnderwayStep(outlier.cfg, batch, turns, first, log, v, outlier.View(), rest, sent, report);
      log := log + [v];
      sent := sent + s.sent;
      if s.ok {
        served := w;
        return;
      }
      if s.rest == [] {
        return;
      }
      rest, report, excluded := s.rest, s.report, excluded + [Blamed(w)];
    }
    var failed := FailBatchItems(rest, report);
    sent := sent + failed;
  }

  /** What a sending comes to for its callers: the attempts of `log`, as many as needed, answered as they say. */
  ghost predicate Delivered(cfg: Config, batch: seq<Item>, turns: seq<Turn>, attempts: nat, first: Fleet,
                            log: seq<Visit>, last: Fleet, sent: seq<Answer>)
    requires batch != []
  {
    && Trace(cfg, batch, turns, first, log, last)
    && |log| <= |turns| && Finished(batch, EventsOf(log), attempts)
    && sent == Answers(batch, EventsOf(log))
    && (AnsweredOnce(batch, sent) <==> !Strands(|batch|, EventsOf(log)))
  }

  /** The worker charged with the batch: the one that served it, unless it was all warmup. */
  function Credit(batch: seq<Item>, log: seq<Visit>): Option<nat>
    requires batch != []
  {
    if log != [] && Play(batch, EventsOf(log)).ok && exists i | i in batch :: !i.warmup
    then log[|log| - 1].worker else None
  }

  /** The budgets, the fleet and the outcome after the batch was charged to the worker credited, if any. */
  ghost function Charged(cfg: Config, thresholds: seq<nat>, credit: Option<nat>, f: Fleet, counts: seq<nat>,
                         hasChannel: bool, size: nat, now: nat): (seq<nat>, Fleet, bool)
    requires |thresholds| == |counts|
  {
    if credit.None? then (counts, f, false)
    else Budget.ChargeSlot(cfg, thresholds, f, counts, hasChannel, credit.value, size, now)
  }

  lemma DeliveredOnce(cfg: Config, batch: seq<Item>, turns: seq<Turn>, attempts: nat, first: Fleet, log: seq<Visit>,
                      last: Fleet, sent: seq<Answer>)
    requires batch != [] && Trace(cfg, batch, turns, first, log, last)
    requires Finished(batch, EventsOf(log), attempts) && sent == Answers(batch, EventsOf(log))
    ensures Delivered(cfg, batch, turns, attempts, first, log, last, sent)
  {
    ExactlyOneAnswer(batch, EventsOf(log));
  }

  /** The attempts of a batch that is not empty. */
  method SendAttempts(batch: seq<Item>, inflight: array<nat>, outlier: OutlierState, turns: seq<Turn>, maxRetries: nat,
                      balance: Balance, h: Hash) returns (sent: seq<Answer>, served: Option<nat>, ghost log: seq<Visit>)
    requires batch != [] && outlier.slots.Length == inflight.Length
    requires |turns| >= MaxAttempts(inflight.Length, maxRetries)
    modifies inflight, outlier, outlier.slots
    ensures inflight[..] == old(inflight[..])
    ensures Delivered(outlier.cfg, batch, turns, MaxAttempts(inflight.Length, maxRetries), old(outlier.View()), log,
                      outlier.View(), sent)
    ensures log != [] && served == if Play(batch, EventsOf(log)).ok then log[|log| - 1].worker else None
    ensures served.Some? <==> Play(batch, EventsOf(log)).ok
  {
    var attempts := if inflight.Length <= 1 || maxRetries == 0 then 1 else maxRetries;
    ghost var first := outlier.View();
    sent, served, log := Attempt(batch, inflight, outlier, turns, attempts, balance, h);
    DeliveredOnce(outlier.cfg, batch, turns, attempts, first, log, outlier.View(), sent);
  }

  /** Sends the batch, retries, and charges the recycle budget of the worker that finally succeeded with the whole
      batch, never for a warmup batch. `log` lists the attempts and `settled` is the fleet they left. */
  method SendBatchWithRetry(batch: seq<Item>, inflight: array<nat>, outlier: OutlierState,
                            budgets: Budget.WorkerBudgets, hasChannel: bool, turns: seq<Turn>, claimAt: nat,
                            maxRetries: nat, balance: Balance, h: Hash)
    returns (sent: seq<Answer>, recycled: bool, ghost log: seq<Visit>, ghost settled: Fleet)
    requires outlier.slots.Length == inflight.Length && |turns| >= MaxAttempts(inflight.Length, maxRetries)
    requires |budgets.thresholds| == budgets.counts.Length && budgets.counts != inflight
    modifies inflight, outlier, outlier.slots, budgets.counts
    ensures inflight[..] == old(inflight[..])
    ensures batch == [] ==>
              && sent == [] && log == [] && !recycled
              && outlier.View() == old(outlier.View()) && budgets.counts[..] == old(budgets.counts[..])
    ensures batch != [] ==>
              Delivered(outlier.cfg, batch, turns, MaxAttempts(inflight.Length, maxRetries), old(outlier.View()), log,
                        settled, sent)
    ensures |log| <= Max(1, maxRetries) && (inflight.Length <= 1 ==> |log| <= 1)
    ensures batch != [] && inflight.Length > 1 && !Play(batch, EventsOf(log)).Over() ==> |log| == Max(1, maxRetries)
    ensures batch != [] && Play(batch, EventsOf(log)).ok && (exists i | i in batch :: !i.warmup) ==>
              log != [] && log[|log| - 1].worker.Some? && Credit(batch, log) == log[|log| - 1].worker
    ensures batch != [] && (!Play(batch, EventsOf(log)).ok || forall i | i in batch :: i.warmup) ==>
              Credit(batch, log).None?
    ensures batch != [] ==>
              (budgets.counts[..], outlier.View(), recycled) ==
                Charged(outlier.cfg, budgets.thresholds, Credit(batch, log), settled, old(budgets.counts[..]),
                        hasChannel, |batch|, claimAt)
  {
    sent, recycled, log, settled := [], false, [], outlier.View();
    if batch == [] {
      return;
    }
    var allWarmup := forall i | i in batch :: i.warmup;
    var served: Option<nat>;
    sent, served, log := SendAttempts(batch, inflight, outlier, turns, maxRetries, balance, h);
    settled := outlier.View();
    assert allWarmup <==> !(exists i | i in batch :: !i.warmup);
    assert Credit(batch, log) == if allWarmup then None else served;
    if served.Some? && !allWarmup {
      recycled := budgets.CheckWorkerBudget(outlier, hasChannel, served.value, |batch|, claimAt);
    }
  }
}
