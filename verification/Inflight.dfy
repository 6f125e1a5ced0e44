/** The per-worker in-flight counters while many dispatches run at once, one atomic operation per step.
    An attempt counts itself on the worker it picked and takes itself off that worker when its answer,
    failure or time-out is there; a sending that retries begins again on another worker. */
module Inflight {
  import opened Common

  /** What a sending is doing: nothing counted, or an attempt under way on a worker. */
  datatype Sending = Between | On(worker: nat)

  datatype State = State(inflight: seq<nat>, sendings: seq<Sending>)

  datatype Step = Begin(a: nat, worker: nat) | Finish(a: nat)

  function FetchAdd(c: nat): nat { (c + 1) % WORD }

  function FetchSub(c: nat): nat { if c == 0 then WORD - 1 else c - 1 }

  /** A step that is not enabled does nothing. */
  function Next(s: State, step: Step): State {
    if step.a >= |s.sendings| then s
    else match step
      case Begin(a, w) =>
        if s.sendings[a].Between? && w < |s.inflight|
        then State(s.inflight[w := FetchAdd(s.inflight[w])], s.sendings[a := On(w)]) else s
      case Finish(a) =>
        if s.sendings[a].On? && s.sendings[a].worker < |s.inflight| then
          var w := s.sendings[a].worker;
          State(s.inflight[w := FetchSub(s.inflight[w])], s.sendings[a := Between])
        else s
  }

  ghost function Exec(workers: nat, n: nat, steps: seq<Step>): State {
    if steps == [] then State(seq(workers, _ => 0), seq(n, _ => Between))
    else Next(Exec(workers, n, steps[..|steps| - 1]), steps[|steps| - 1])
  }

  ghost function UnderWay(s: State, w: nat): set<nat> { set a | 0 <= a < |s.sendings| && s.sendings[a] == On(w) }

  ghost predicate Inv(workers: nat, n: nat, s: State) {
    && |s.inflight| == workers && |s.sendings| == n
    && forall w | 0 <= w < workers :: s.inflight[w] == |UnderWay(s, w)|
  }

  lemma StepKeepsWorker(workers: nat, n: nat, s: State, step: Step, w: nat)
    requires n < WORD && Inv(workers, n, s) && w < workers && step.a < n
    ensures Next(s, step).inflight[w] == |UnderWay(Next(s, step), w)|
  {
    var t := Next(s, step);
    SizesDiffer(UnderWay(s, w), UnderWay(t, w), step.a);
    IndexSetSize(UnderWay(t, w), n);
    if step.a in UnderWay(s, w) {
      SubsetSize({step.a}, UnderWay(s, w));
    }
  }

  lemma StepKeepsInv(workers: nat, n: nat, s: State, step: Step)
    requires n < WORD && Inv(workers, n, s)
    ensures Inv(workers, n, Next(s, step))
  {
    if step.a < n {
      forall w: nat | w < workers ensures Next(s, step).inflight[w] == |UnderWay(Next(s, step), w)| {
        StepKeepsWorker(workers, n, s, step, w);
      }
    }
  }

  lemma NoneUnderWay(s: State, w: nat)
    ensures |UnderWay(s, w)| == 0 <==> forall a | 0 <= a < |s.sendings| :: s.sendings[a] != On(w)
  {
    if |UnderWay(s, w)| == 0 {
      forall a | 0 <= a < |s.sendings| ensures s.sendings[a] != On(w) {
        assert a !in UnderWay(s, w);
      }
    } else {
      var a :| a in UnderWay(s, w);
    }
  }

  /** In every interleaving of sendings the counter of a worker is the number of attempts under way on it, so it reads
      zero exactly when there is none. */
  lemma {:induction false} InflightCounts(workers: nat, n: nat, steps: seq<Step>)
    requires n < WORD
    ensures Inv(workers, n, Exec(workers, n, steps))
    ensures var s := Exec(workers, n, steps);
            forall w | 0 <= w < workers :: s.inflight[w] == 0 <==> forall a | 0 <= a < n :: s.sendings[a] != On(w)
  {
    var s := Exec(workers, n, steps);
    if steps == [] {
      forall w | 0 <= w < workers ensures s.inflight[w] == |UnderWay(s, w)| {
        NoneUnderWay(s, w);
      }
    } else {
      InflightCounts(workers, n, steps[..|steps| - 1]);
      StepKeepsInv(workers, n, Exec(workers, n, steps[..|steps| - 1]), steps[|steps| - 1]);
    }
    forall w | 0 <= w < workers ensures s.inflight[w] == 0 <==> forall a | 0 <= a < n :: s.sendings[a] != On(w) {
      NoneUnderWay(s, w);
    }
  }
}
