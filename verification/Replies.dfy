/** What the replies of the workers come to for the callers of a batch.

    `Settle` says what one attempt does to the batch, `Play` and `Answers` what all attempts do
    and send; the lemmas say what that means for the callers. */
module Replies {
  import opened Common
  import opened Pickers

  /** A queued request; `chan` is its one-shot response channel, distinct from its uid. */
  datatype Item = Item(chan: nat, uid: string, warmup: bool, pin: Option<nat>, keys: Keys)

  datatype Single = Single(error: bool, statusCode: nat, payload: nat)

  datatype Entry = Entry(uid: string, response: Single)

  datatype Reply = BatchReply(entries: seq<Entry>) | SingleReply(response: Single) | OtherReply | TimedOut | SendFailed

  /** What an attempt comes to: no worker could be asked, or one was and this came back. */
  datatype Event = Gated | Replied(reply: Reply)

  datatype Reason = Unavailable | PartialBatch | RequestLevel | WorkerError | UnexpectedType | Timeout | Transport

  /** A worker's own response, a uid the worker left out, or a failure reported by the scheduler. */
  datatype Content = FromWorker(response: Single) | Missing | Fault(reason: Reason)

  datatype Answer = Answer(chan: nat, uid: string, content: Content)

  /** How the attempt is scored against its worker. */
  datatype Score = Unscored | Good | Bad

  /** One attempt's effect: items left, answers sent, whether it succeeded, and what to report if it is the last. */
  datatype Settled = Settled(rest: seq<Item>, sent: seq<Answer>, ok: bool, score: Score, report: Content)

  // ----- Specification -----

  function ResponseMap(entries: seq<Entry>): map<string, Single> {
    if entries == [] then map[]
    else ResponseMap(entries[..|entries| - 1])[entries[|entries| - 1].uid := entries[|entries| - 1].response]
  }

  function ItemAnswer(item: Item, m: map<string, Single>): Answer {
    Answer(item.chan, item.uid, if item.uid in m then FromWorker(m[item.uid]) else Missing)
  }

  function ItemAnswers(batch: seq<Item>, m: map<string, Single>): (r: seq<Answer>)
    ensures |r| == |batch|
  {
    seq(|batch|, k requires 0 <= k < |batch| => ItemAnswer(batch[k], m))
  }

  predicate ItemFailed(item: Item, m: map<string, Single>) { item.uid !in m || m[item.uid].error }

  predicate AllServed(batch: seq<Item>, m: map<string, Single>) {
    forall k | 0 <= k < |batch| :: !ItemFailed(batch[k], m)
  }

  predicate RequestFault(s: Single) { s.error && 400 <= s.statusCode < 500 }

  function Last(batch: seq<Item>, s: Single): seq<Answer>
    requires batch != []
  {
    [Answer(batch[|batch| - 1].chan, batch[|batch| - 1].uid, FromWorker(s))]
  }

  function Settle(batch: seq<Item>, event: Event): Settled
    requires batch != []
  {
    match event
    case Gated => Settled(batch, [], false, Unscored, FromWorker(Single(true, 503, 0)))
    case Replied(BatchReply(entries)) =>
      var m := ResponseMap(entries);
      var ok := AllServed(batch, m);
      Settled([], ItemAnswers(batch, m), ok, if ok then Good else Bad, Fault(PartialBatch))
    case Replied(SingleReply(s)) =>
      if RequestFault(s) then Settled(batch[..|batch| - 1], Last(batch, s), false, Unscored, Fault(RequestLevel))
      else if s.error then Settled(batch, [], false, Bad, FromWorker(s))
      else Settled(batch[..|batch| - 1], Last(batch, s), true, Good, Fault(RequestLevel))
    case Replied(OtherReply) => Settled(batch, [], false, Bad, Fault(UnexpectedType))
    case Replied(TimedOut) => Settled(batch, [], false, Bad, Fault(Timeout))
    case Replied(SendFailed) => Settled(batch, [], false, Bad, Fault(Transport))
  }

  function FailAnswers(batch: seq<Item>, report: Content): (r: seq<Answer>)
    ensures |r| == |batch|
  {
    seq(|batch|, k requires 0 <= k < |batch| => Answer(batch[k].chan, batch[k].uid, report))
  }

  /** Where a sending stands: items left, answers sent, whether the last attempt succeeded, what to report. */
  datatype Progress = Progress(rest: seq<Item>, sent: seq<Answer>, ok: bool, report: Content)
  {
    predicate Over() { ok || rest == [] }
  }

  /** The attempts one after the other, until one succeeds or empties the batch. */
  function Play(batch: seq<Item>, events: seq<Event>): Progress
    requires batch != []
  {
    if events == [] then Progress(batch, [], false, Fault(Unavailable))
    else
      var p := Play(batch, events[..|events| - 1]);
      if p.Over() then p
      else
        var s := Settle(p.rest, events[|events| - 1]);
        Progress(s.rest, p.sent + s.sent, s.ok, s.report)
  }

  /** Everything sent: what the attempts sent, and the last failure to whoever is left when they are used up. */
  function Answers(batch: seq<Item>, events: seq<Event>): seq<Answer>
    requires batch != []
  {
    var p := Play(batch, events);
    p.sent + if p.Over() then [] else FailAnswers(p.rest, p.report)
  }

  lemma PlayExtends(batch: seq<Item>, events: seq<Event>, e: Event)
    requires batch != [] && !Play(batch, events).Over()
    ensures var p := Play(batch, events);
            var s := Settle(p.rest, e);
            && Play(batch, events + [e]) == Progress(s.rest, p.sent + s.sent, s.ok, s.report)
            && (s.ok || s.rest == [] ==> Answers(batch, events + [e]) == p.sent + s.sent)
  {
    assert (events + [e])[..|events|] == events;
  }

  predicate Served(e: Event) { e.Replied? && e.reply.SingleReply? && !e.reply.response.error }

  /** How many items wait for another attempt, from the batch size and the replies alone. */
  function Waiting(size: nat, events: seq<Event>): nat {
    if events == [] then size
    else
      var w := Waiting(size, events[..|events| - 1]);
      match events[|events| - 1]
      case Replied(BatchReply(_)) => 0
      case Replied(SingleReply(s)) => if RequestFault(s) then Max(w - 1, 0) else if s.error then w else 0
      case _ => w
  }

  /** A successful single reply comes back while several items wait. */
  predicate Strands(size: nat, events: seq<Event>) {
    exists k | 0 <= k < |events| :: Served(events[k]) && Waiting(size, events[..k]) > 1
  }

  function ItemChannels(batch: seq<Item>): (r: seq<nat>)
    ensures |r| == |batch|
  {
    seq(|batch|, k requires 0 <= k < |batch| => batch[k].chan)
  }

  function Channels(sent: seq<Answer>): (r: seq<nat>)
    ensures |r| == |sent|
  {
    seq(|sent|, k requires 0 <= k < |sent| => sent[k].chan)
  }

  ghost predicate AnsweredOnce(batch: seq<Item>, sent: seq<Answer>) {
    multiset(Channels(sent)) == multiset(ItemChannels(batch))
  }

  // ----- What it means for callers -----

  lemma SettleSplits(batch: seq<Item>, event: Event)
    requires batch != []
    ensures var s := Settle(batch, event);
            multiset(ItemChannels(batch)) == multiset(Channels(s.sent)) + multiset(ItemChannels(s.rest))
  {
    var s := Settle(batch, event);
    if event.Replied? && event.reply.BatchReply? {
      assert Channels(s.sent) == ItemChannels(batch);
    } else if s.rest != batch {
      assert ItemChannels(batch) == ItemChannels(s.rest) + Channels(s.sent);
    }
  }

  lemma FailAnswersAll(rest: seq<Item>, report: Content)
    ensures Channels(FailAnswers(rest, report)) == ItemChannels(rest)
  {
  }

  lemma ChannelsConcat(a: seq<Answer>, b: seq<Answer>)
    ensures multiset(Channels(a + b)) == multiset(Channels(a)) + multiset(Channels(b))
  {
    assert Channels(a + b) == Channels(a) + Channels(b);
  }

  lemma StrandsStep(size: nat, events: seq<Event>)
    requires events != []
    ensures var init := events[..|events| - 1];
            Strands(size, events) <==> Strands(size, init) || (Served(events[|events| - 1]) && Waiting(size, init) > 1)
  {
    var init := events[..|events| - 1];
    assert forall k | 0 <= k < |init| :: events[..k] == init[..k] && events[k] == init[k];
  }

  /** `Waiting` and `Strands` are what the attempts come to. */
  lemma {:induction false} PlayWaits(batch: seq<Item>, events: seq<Event>)
    requires batch != []
    ensures var p := Play(batch, events);
            && Waiting(|batch|, events) == (if p.ok then 0 else |p.rest|)
            && (Strands(|batch|, events) <==> p.ok && p.rest != [])
  {
    if events != [] {
      PlayWaits(batch, events[..|events| - 1]);
      StrandsStep(|batch|, events);
    }
  }

  lemma {:induction false} PlaySplits(batch: seq<Item>, events: seq<Event>)
    requires batch != []
    ensures var p := Play(batch, events);
            multiset(ItemChannels(batch)) == multiset(Channels(p.sent)) + multiset(ItemChannels(p.rest))
  {
    if events != [] {
      var init := events[..|events| - 1];
      PlaySplits(batch, init);
      var p := Play(batch, init);
      if !p.Over() {
        SettleSplits(p.rest, events[|events| - 1]);
        ChannelsConcat(p.sent, Settle(p.rest, events[|events| - 1]).sent);
      }
    }
  }

  /** Answered and unanswered channels make up the batch; none is unanswered exactly without stranding. */
  lemma AnswersAccount(batch: seq<Item>, events: seq<Event>) returns (unanswered: seq<nat>)
    requires batch != []
    ensures multiset(Channels(Answers(batch, events))) + multiset(unanswered) == multiset(ItemChannels(batch))
    ensures unanswered == [] <==> !Strands(|batch|, events)
  {
    PlaySplits(batch, events);
    PlayWaits(batch, events);
    var p := Play(batch, events);
    if p.Over() {
      assert p.sent + [] == p.sent;
      unanswered := ItemChannels(p.rest);
    } else {
      FailAnswersAll(p.rest, p.report);
      ChannelsConcat(p.sent, FailAnswers(p.rest, p.report));
      unanswered := [];
    }
  }

  /** No caller is ever answered twice, and every caller exactly once unless a worker answers a batch of
      several with one successful single response. */
  lemma ExactlyOneAnswer(batch: seq<Item>, events: seq<Event>)
    requires batch != []
    ensures forall c :: multiset(Channels(Answers(batch, events)))[c] <= multiset(ItemChannels(batch))[c]
    ensures AnsweredOnce(batch, Answers(batch, events)) <==> !Strands(|batch|, events)
  {
    var unanswered := AnswersAccount(batch, events);
    assert |multiset(unanswered)| == |unanswered|;
    if unanswered != [] {
      assert multiset(unanswered)[unanswered[0]] > 0;
    }
  }

  lemma {:induction false} WaitingShrinks(size: nat, events: seq<Event>)
    ensures Waiting(size, events) <= size
  {
    if events != [] {
      WaitingShrinks(size, events[..|events| - 1]);
    }
  }

  /** Workers that answer single requests singly and batches by batch never strand anyone. */
  lemma ConformingWorkersNeverStrand(size: nat, events: seq<Event>)
    requires forall e | e in events && e.Replied? && e.reply.SingleReply? :: size == 1
    ensures !Strands(size, events)
  {
    forall k | 0 <= k < |events| && Served(events[k]) ensures Waiting(size, events[..k]) <= 1 {
      assert events[k] in events;
      WaitingShrinks(size, events[..k]);
    }
  }

  /** The stranding is real: two requests, one successful single reply, one caller never answered. */
  lemma LoneReplyStrands(a: Item, b: Item, s: Single)
    requires a.chan != b.chan && !s.error
    ensures Answers([a, b], [Replied(SingleReply(s))]) == [Answer(b.chan, b.uid, FromWorker(s))]
    ensures !AnsweredOnce([a, b], Answers([a, b], [Replied(SingleReply(s))]))
  {
    var events := [Replied(SingleReply(s))];
    assert events[..0] == [] && Play([a, b], []).rest == [a, b];
    assert Play([a, b], events).sent == [] + Last([a, b], s);
    ExactlyOneAnswer([a, b], events);
    PlayWaits([a, b], events);
  }

  ghost predicate Unanswered(entries: seq<Entry>, uid: string) {
    forall j | 0 <= j < |entries| :: entries[j].uid != uid
  }

  /** Entry `j` is the last one for `uid`. */
  ghost predicate LastFor(entries: seq<Entry>, j: nat, uid: string) {
    && j < |entries| && entries[j].uid == uid
    && forall k | j < k < |entries| :: entries[k].uid != uid
  }

  /** The last entry for `uid` says `s`. */
  ghost predicate Says(entries: seq<Entry>, uid: string, s: Single) {
    exists j: nat :: LastFor(entries, j, uid) && entries[j].response == s
  }

  lemma SaysNext(init: seq<Entry>, last: Entry, uid: string, s: Single)
    ensures last.uid == uid ==> Says(init + [last], uid, last.response)
    ensures last.uid != uid && Says(init, uid, s) ==> Says(init + [last], uid, s)
  {
    var entries := init + [last];
    if last.uid == uid {
      assert LastFor(entries, |init|, uid);
    } else if Says(init, uid, s) {
      var j: nat :| LastFor(init, j, uid) && init[j].response == s;
      assert entries[j] == init[j] && LastFor(entries, j, uid);
    }
  }

  lemma {:induction false} ResponseMapSays(entries: seq<Entry>, uid: string)
    ensures uid in ResponseMap(entries) ==> Says(entries, uid, ResponseMap(entries)[uid])
    ensures uid !in ResponseMap(entries) <==> Unanswered(entries, uid)
  {
    if entries != [] {
      var init, last := entries[..|entries| - 1], entries[|entries| - 1];
      var m := ResponseMap(init);
      ResponseMapSays(init, uid);
      SaysNext(init, last, uid, if uid in m then m[uid] else last.response);
      assert entries == init + [last];
    }
  }

  lemma SaysOnce(entries: seq<Entry>, uid: string, s: Single, t: Single)
    requires Says(entries, uid, s)
    ensures !Unanswered(entries, uid)
    ensures Says(entries, uid, t) ==> s == t
  {
  }

  /** Every caller of a batch gets what the last entry with its own uid says, whatever else the reply holds, and the
      missing-item error exactly when there is none. */
  lemma OwnAnswer(batch: seq<Item>, entries: seq<Entry>, k: nat)
    requires k < |batch|
    ensures var a := Settle(batch, Replied(BatchReply(entries))).sent;
            && |a| == |batch| && a[k].chan == batch[k].chan && a[k].uid == batch[k].uid
            && (forall s :: a[k].content == FromWorker(s) <==> Says(entries, batch[k].uid, s))
            && (a[k].content == Missing <==> Unanswered(entries, batch[k].uid))
  {
    var uid, m := batch[k].uid, ResponseMap(entries);
    ResponseMapSays(entries, uid);
    forall s ensures Says(entries, uid, s) ==> uid in m && m[uid] == s {
      if Says(entries, uid, s) {
        SaysOnce(entries, uid, s, if uid in m then m[uid] else s);
      }
    }
  }

  // ----- What a reply says about its worker -----

  /** The reply does not serve what was asked: a time-out, a failed send, an unexpected type, a failure that is not the
      request's own, or a batch reply that leaves out or fails some item. */
  ghost predicate WorkerFailed(batch: seq<Item>, reply: Reply) {
    match reply
    case BatchReply(entries) =>
      exists k | 0 <= k < |batch| :: Unserved(entries, batch[k].uid)
    case SingleReply(s) => s.error && !(400 <= s.statusCode <= 499)
    case _ => true
  }

  ghost predicate Unserved(entries: seq<Entry>, uid: string) {
    Unanswered(entries, uid) || exists s | Says(entries, uid, s) :: s.error
  }

  lemma UnservedFails(item: Item, entries: seq<Entry>)
    ensures ItemFailed(item, ResponseMap(entries)) <==> Unserved(entries, item.uid)
  {
    var m := ResponseMap(entries);
    ResponseMapSays(entries, item.uid);
    if item.uid in m {
      forall s | Says(entries, item.uid, s) ensures s == m[item.uid] {
        SaysOnce(entries, item.uid, s, m[item.uid]);
      }
      SaysOnce(entries, item.uid, m[item.uid], m[item.uid]);
    }
  }

  /** How an attempt is scored, from what came back alone: against the worker exactly when the worker failed, not at all
      when nobody was asked or the request itself was at fault, and for it otherwise. */
  lemma ScoreFollowsReply(batch: seq<Item>, event: Event)
    requires batch != []
    ensures var s := Settle(batch, event);
            && (s.score.Bad? <==> event.Replied? && WorkerFailed(batch, event.reply))
            && (s.score.Unscored? <==>
                  event.Gated? || (event.reply.SingleReply? && event.reply.response.error
                                   && 400 <= event.reply.response.statusCode <= 499))
            && (s.ok <==> s.score.Good?)
  {
    if event.Replied? && event.reply.BatchReply? {
      var entries := event.reply.entries;
      forall k | 0 <= k < |batch|
        ensures ItemFailed(batch[k], ResponseMap(entries)) <==> Unserved(entries, batch[k].uid)
      {
        UnservedFails(batch[k], entries);
      }
    }
  }

  // ----- What callers hear -----

  /** What came back from one attempt accounts for an answer; a failure that is retried does so only when it is the
      last one. */
  ghost predicate Explains(e: Event, uid: string, content: Content, last: bool) {
    match content
    case FromWorker(s) =>
      match e {
        case Gated => last && s == Single(true, 503, 0)
        case Replied(BatchReply(entries)) => Says(entries, uid, s)
        case Replied(SingleReply(t)) => s == t && (t.error && !(400 <= t.statusCode <= 499) ==> last)
        case _ => false
      }
    case Missing => e.Replied? && e.reply.BatchReply? && Unanswered(e.reply.entries, uid)
    case Fault(Timeout) => last && e == Replied(TimedOut)
    case Fault(Transport) => last && e == Replied(SendFailed)
    case Fault(UnexpectedType) => last && e == Replied(OtherReply)
    case Fault(RequestLevel) =>
      last && e.Replied? && e.reply.SingleReply? && e.reply.response.error && 400 <= e.reply.response.statusCode <= 499
    case Fault(_) => false
  }

  ghost predicate Explained(events: seq<Event>, uid: string, content: Content) {
    exists k | 0 <= k < |events| :: Explains(events[k], uid, content, k == |events| - 1)
  }

  lemma SettleExplains(batch: seq<Item>, e: Event, a: Answer)
    requires batch != [] && a in Settle(batch, e).sent
    ensures Explains(e, a.uid, a.content, false)
  {
    if e.Replied? && e.reply.BatchReply? {
      var k :| 0 <= k < |batch| && Settle(batch, e).sent[k] == a;
      OwnAnswer(batch, e.reply.entries, k);
    }
  }

  lemma {:induction false} SentExplained(batch: seq<Item>, events: seq<Event>, a: Answer)
    requires batch != [] && a in Play(batch, events).sent
    ensures exists k | 0 <= k < |events| :: Explains(events[k], a.uid, a.content, false)
  {
    var init, e := events[..|events| - 1], events[|events| - 1];
    var p := Play(batch, init);
    if a in p.sent {
      SentExplained(batch, init, a);
      var k :| 0 <= k < |init| && Explains(init[k], a.uid, a.content, false);
      assert events[k] == init[k];
    } else {
      SettleExplains(p.rest, e, a);
    }
  }

  /** Every answer sent is accounted for by what came back: by a reply that answers it or, for those left when the
      attempts are used up, by the last attempt's failure. */
  lemma EveryAnswerExplained(batch: seq<Item>, events: seq<Event>, a: Answer)
    requires batch != [] && events != [] && a in Answers(batch, events)
    ensures Explained(events, a.uid, a.content)
  {
    var p := Play(batch, events);
    if a in p.sent {
      SentExplained(batch, events, a);
      var k :| 0 <= k < |events| && Explains(events[k], a.uid, a.content, false);
      assert Explains(events[k], a.uid, a.content, k == |events| - 1);
    } else {
      var last := |events| - 1;
      var q := Play(batch, events[..last]);
      assert p.report == Settle(q.rest, events[last]).report && a.content == p.report;
      assert Explains(events[last], a.uid, a.content, true);
    }
  }

  /** A single reply that is forwarded goes to the last item of the batch; a retried one to nobody. */
  lemma SingleReplyGoesToLast(batch: seq<Item>, s: Single)
    requires batch != []
    ensures var r, last := Settle(batch, Replied(SingleReply(s))), batch[|batch| - 1];
            if s.error && !(400 <= s.statusCode <= 499) then r.rest == batch && r.sent == []
            else batch == r.rest + [last] && r.sent == [Answer(last.chan, last.uid, FromWorker(s))]
  {
  }

  /** Attempts that leave the whole batch to be retried. */
  predicate Retryable(e: Event) {
    || e.Gated?
    || (if e.reply.SingleReply? then e.reply.response.error && !RequestFault(e.reply.response)
        else !e.reply.BatchReply?)
  }

  lemma {:induction false} RetryKeepsBatch(batch: seq<Item>, events: seq<Event>)
    requires batch != [] && forall e | e in events :: Retryable(e)
    ensures var p := Play(batch, events);
            && p.rest == batch && p.sent == [] && !p.ok
            && (events != [] ==> p.report == Settle(batch, events[|events| - 1]).report)
  {
    if events != [] {
      var init := events[..|events| - 1];
      assert forall e | e in init :: e in events;
      RetryKeepsBatch(batch, init);
      assert events[|events| - 1] in events;
    }
  }

  /** When no attempt gets through, every caller hears what came of the last one. */
  lemma ExhaustedReportsLast(batch: seq<Item>, events: seq<Event>)
    requires batch != [] && events != [] && forall e | e in events :: Retryable(e)
    ensures Answers(batch, events) == FailAnswers(batch, Settle(batch, events[|events| - 1]).report)
  {
    RetryKeepsBatch(batch, events);
  }

  ghost predicate DistinctUids(entries: seq<Entry>) {
    forall i, j | 0 <= i < j < |entries| :: entries[i].uid != entries[j].uid
  }

  lemma {:induction false} ResponseMapFinds(entries: seq<Entry>, uid: string)
    requires DistinctUids(entries)
    ensures forall s :: uid in ResponseMap(entries) && ResponseMap(entries)[uid] == s <==> Entry(uid, s) in entries
  {
    if entries != [] {
      var init, last := entries[..|entries| - 1], entries[|entries| - 1];
      ResponseMapFinds(init, uid);
      assert entries == init + [last];
      forall s ensures Entry(last.uid, s) !in init {
        assert forall k | 0 <= k < |init| :: init[k] == entries[k];
      }
    }
  }

  /** Replies are matched by uid: the order of a worker's entries never matters. */
  lemma ReplyOrderIrrelevant(batch: seq<Item>, a: seq<Entry>, b: seq<Entry>)
    requires batch != [] && multiset(a) == multiset(b) && DistinctUids(a) && DistinctUids(b)
    ensures Settle(batch, Replied(BatchReply(a))) == Settle(batch, Replied(BatchReply(b)))
  {
    var m, n := ResponseMap(a), ResponseMap(b);
    forall uid ensures uid in m <==> uid in n
      ensures uid in m && uid in n ==> m[uid] == n[uid]
    {
      ResponseMapFinds(a, uid);
      ResponseMapFinds(b, uid);
      assert forall e :: e in a <==> e in multiset(a);
      assert forall e :: e in b <==> e in multiset(b);
      if uid in m {
        assert Entry(uid, m[uid]) in b;
      }
      if uid in n {
        assert Entry(uid, n[uid]) in a;
      }
    }
    assert m == n;
  }
}
