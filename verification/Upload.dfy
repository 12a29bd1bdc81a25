/**
  The upload pipeline of Client.Update (pkg/client/client.go): a feeder, any number of
  readers and one sender, joined by two channels. The model is a transition system whose
  actions are the channel operations, run in any interleaving; no operation fails.
  An entry of the difference is represented by its index.
*/
module Upload {

  const OBJECT_CHANNEL_SIZE := 32

  datatype Reader = Idle | Holding(entry: nat) | Stopped

  /**
    `sent` is what went to the server, in order; the sender's count is its length.
    `senderAtTop` is before the sender's test of its count (pkg/client/client.go:595).
  */
  datatype Pipeline = Pipeline(
    total: nat, fed: nat, updatesClosed: bool, updateChan: seq<nat>,
    readers: seq<Reader>, objectChan: seq<nat>, objectsClosed: bool,
    sent: seq<nat>, senderAtTop: bool, senderDone: bool)

  datatype Action = Feed | CloseUpdates | Take(i: nat) | Stop(i: nat) | Offer(i: nat) | CheckCount | Receive | Finish

  function Start(total: nat, readers: nat): Pipeline {
    Pipeline(total, 0, false, [], seq(readers, _ => Idle), [], false, [], true, false)
  }

  /** The action can happen now. A send on a closed channel does not block: it panics. */
  predicate Enabled(p: Pipeline, a: Action) {
    match a
    case Feed => p.fed < p.total && |p.updateChan| < p.total
    case CloseUpdates => p.fed == p.total && !p.updatesClosed
    case Take(i) => i < |p.readers| && p.readers[i].Idle? && p.updateChan != []
    case Stop(i) => i < |p.readers| && p.readers[i].Idle? && p.updateChan == [] && p.updatesClosed
    case Offer(i) => i < |p.readers| && p.readers[i].Holding? && (p.objectsClosed || |p.objectChan| < OBJECT_CHANNEL_SIZE)
    case CheckCount => !p.senderDone && p.senderAtTop
    case Receive => !p.senderDone && !p.senderAtTop && p.objectChan != []
    case Finish => !p.senderDone && !p.senderAtTop && p.objectChan == [] && p.objectsClosed
  }

  /** Sending on, or closing, a channel that is closed. */
  predicate Panics(p: Pipeline, a: Action) {
    || (a.Offer? && p.objectsClosed)
    || (a.CheckCount? && |p.sent| == p.total && p.objectsClosed)
  }

  function Step(p: Pipeline, a: Action): Pipeline
    requires Enabled(p, a)
  {
    match a
    case Feed => p.(updateChan := p.updateChan + [p.fed], fed := p.fed + 1)
    case CloseUpdates => p.(updatesClosed := true)
    case Take(i) => p.(readers := p.readers[i := Holding(p.updateChan[0])], updateChan := p.updateChan[1..])
    case Stop(i) => p.(readers := p.readers[i := Stopped])
    case Offer(i) => p.(readers := p.readers[i := Idle], objectChan := p.objectChan + [p.readers[i].entry])
    case CheckCount => p.(objectsClosed := p.objectsClosed || |p.sent| == p.total, senderAtTop := false)
    case Receive => p.(sent := p.sent + [p.objectChan[0]], objectChan := p.objectChan[1..], senderAtTop := true)
    case Finish => p.(senderDone := true)
  }

  // ----- Where every entry is -----

  function One(b: bool): nat { if b then 1 else 0 }

  /** How often `e` occurs in a channel. */
  function In(c: seq<nat>, e: nat): nat {
    if c == [] then 0 else One(c[0] == e) + In(c[1..], e)
  }

  /** How many readers hold `e`. */
  function HeldTimes(readers: seq<Reader>, e: nat): nat {
    if readers == [] then 0 else One(readers[0] == Holding(e)) + HeldTimes(readers[1..], e)
  }

  /** How many readers hold some entry. */
  function Holders(readers: seq<Reader>): nat {
    if readers == [] then 0 else One(readers[0].Holding?) + Holders(readers[1..])
  }

  /** In how many places entry `e` is: not fed yet, waiting, held, queued, sent. */
  function Places(p: Pipeline, e: nat): nat {
    One(p.fed <= e < p.total) + In(p.updateChan, e) + HeldTimes(p.readers, e) + In(p.objectChan, e) + In(p.sent, e)
  }

  /** Every entry of the difference is in exactly one place, and nothing else is anywhere. */
  ghost predicate Conserved(p: Pipeline) {
    forall e: nat :: Places(p, e) == One(e < p.total)
  }

  /** Pending, held, queued and sent entries add up to the size of the difference. */
  ghost predicate Counted(p: Pipeline) {
    && p.fed <= p.total
    && (p.total - p.fed) + |p.updateChan| + Holders(p.readers) + |p.objectChan| + |p.sent| == p.total
  }

  ghost predicate Closing(p: Pipeline) {
    && (p.updatesClosed ==> p.fed == p.total)
    && (p.objectsClosed ==> |p.sent| == p.total && !p.senderAtTop)
    && (!p.senderAtTop && |p.sent| == p.total ==> p.objectsClosed)
    && (p.senderDone ==> p.objectsClosed)
    && (forall i :: 0 <= i < |p.readers| && p.readers[i].Stopped? ==> p.updatesClosed && p.updateChan == [])
  }

  ghost predicate Inv(p: Pipeline) {
    Conserved(p) && Counted(p) && Closing(p)
  }

  lemma {:induction false} Appended(c: seq<nat>, x: nat, e: nat)
    ensures In(c + [x], e) == In(c, e) + One(x == e)
  {
    if c == [] {
      assert c + [x] == [x];
    } else {
      assert (c + [x])[1..] == c[1..] + [x];
      Appended(c[1..], x, e);
    }
  }

  lemma {:induction false} ReaderChanges(readers: seq<Reader>, i: nat, r: Reader, e: nat)
    requires i < |readers|
    ensures HeldTimes(readers[i := r], e) + One(readers[i] == Holding(e)) == HeldTimes(readers, e) + One(r == Holding(e))
    ensures Holders(readers[i := r]) + One(readers[i].Holding?) == Holders(readers) + One(r.Holding?)
    ensures Active(readers[i := r]) + One(!readers[i].Stopped?) == Active(readers) + One(!r.Stopped?)
  {
    if i == 0 {
      assert readers[i := r][1..] == readers[1..];
    } else {
      assert readers[i := r][1..] == readers[1..][i - 1 := r];
      ReaderChanges(readers[1..], i - 1, r, e);
    }
  }

  lemma {:induction false} NobodyHolds(readers: seq<Reader>, e: nat)
    requires forall i :: 0 <= i < |readers| ==> !readers[i].Holding?
    ensures Holders(readers) == 0 && HeldTimes(readers, e) == 0
  {
    if readers != [] {
      NobodyHolds(readers[1..], e);
    }
  }

  lemma {:induction false} SomebodyHolds(readers: seq<Reader>, i: nat)
    requires i < |readers| && readers[i].Holding?
    ensures Holders(readers) >= 1
  {
    if i > 0 {
      SomebodyHolds(readers[1..], i - 1);
    }
  }

  /** Once everything is sent, nobody has anything left to send. */
  lemma SentMeansDrained(p: Pipeline, i: nat)
    requires Inv(p) && |p.sent| == p.total && i < |p.readers|
    ensures !p.readers[i].Holding? && p.objectChan == [] && p.updateChan == [] && p.fed == p.total
  {
    if p.readers[i].Holding? {
      SomebodyHolds(p.readers, i);
    }
  }

  /** No reachable action sends on a closed channel or closes one twice. */
  lemma NeverPanics(p: Pipeline, a: Action)
    requires Inv(p) && Enabled(p, a)
    ensures !Panics(p, a)
  {
    if a.Offer? && p.objectsClosed {
      SentMeansDrained(p, a.i);
    }
  }

  lemma PlacesStep(p: Pipeline, a: Action, e: nat)
    requires Enabled(p, a)
    ensures Places(Step(p, a), e) == Places(p, e)
  {
    match a
    case Feed => Appended(p.updateChan, p.fed, e);
    case Take(i) => ReaderChanges(p.readers, i, Holding(p.updateChan[0]), e);
    case Stop(i) => ReaderChanges(p.readers, i, Stopped, e);
    case Offer(i) =>
      ReaderChanges(p.readers, i, Idle, e);
      Appended(p.objectChan, p.readers[i].entry, e);
    case Receive => Appended(p.sent, p.objectChan[0], e);
    case _ =>
  }

  lemma CountedStep(p: Pipeline, a: Action)
    requires Counted(p) && Enabled(p, a)
    ensures Counted(Step(p, a))
  {
    match a
    case Take(i) => ReaderChanges(p.readers, i, Holding(p.updateChan[0]), 0);
    case Stop(i) => ReaderChanges(p.readers, i, Stopped, 0);
    case Offer(i) => ReaderChanges(p.readers, i, Idle, 0);
    case _ =>
  }

  lemma ClosingStep(p: Pipeline, a: Action)
    requires Counted(p) && Closing(p) && Enabled(p, a)
    ensures Closing(Step(p, a))
  {
  }

  lemma InvStep(p: Pipeline, a: Action)
    requires Inv(p) && Enabled(p, a)
    ensures Inv(Step(p, a))
  {
    var q := Step(p, a);
    forall e: nat ensures Places(q, e) == One(e < q.total) {
      PlacesStep(p, a, e);
    }
    CountedStep(p, a);
    ClosingStep(p, a);
  }

  lemma InvStart(total: nat, readers: nat)
    ensures Inv(Start(total, readers))
  {
    var p := Start(total, readers);
    forall e: nat ensures Places(p, e) == One(e < total) {
      NobodyHolds(p.readers, e);
    }
    NobodyHolds(p.readers, 0);
  }

  // ----- Runs -----

  /** How many readers have not returned. */
  function Active(readers: seq<Reader>): nat {
    if readers == [] then 0 else One(!readers[0].Stopped?) + Active(readers[1..])
  }

  /** The operations that are still to come. */
  function Remaining(p: Pipeline): int {
    5 * (p.total - p.fed) + 4 * |p.updateChan| + 3 * Holders(p.readers) + 2 * |p.objectChan|
    + Active(p.readers) + One(!p.updatesClosed) + One(p.senderAtTop) + One(!p.senderDone)
  }

  /** Every action brings the pipeline exactly one operation closer to its end. */
  lemma RemainingStep(p: Pipeline, a: Action)
    requires Enabled(p, a)
    ensures Remaining(Step(p, a)) == Remaining(p) - 1
  {
    match a
    case Take(i) => ReaderChanges(p.readers, i, Holding(p.updateChan[0]), 0);
    case Stop(i) => ReaderChanges(p.readers, i, Stopped, 0);
    case Offer(i) => ReaderChanges(p.readers, i, Idle, 0);
    case _ =>
  }

  predicate Finished(p: Pipeline) {
    p.senderDone && forall i :: 0 <= i < |p.readers| ==> p.readers[i].Stopped?
  }

  /** The pipeline never gets stuck before it is finished, with at least one reader. */
  lemma NeverStuck(p: Pipeline) returns (a: Action)
    requires Inv(p) && p.readers != [] && !(Finished(p) && p.updatesClosed)
    ensures Enabled(p, a)
  {
    if p.fed < p.total { return Feed; }
    if !p.updatesClosed { return CloseUpdates; }
    if !p.senderDone && p.senderAtTop { return CheckCount; }
    if !p.senderDone && p.objectChan != [] { return Receive; }
    if !p.senderDone && p.objectsClosed { return Finish; }
    if i :| 0 <= i < |p.readers| && p.readers[i].Idle? {
      return if p.updateChan == [] then Stop(i) else Take(i);
    }
    if i :| 0 <= i < |p.readers| && p.readers[i].Holding? {
      a := Offer(i);
      if p.senderDone {
        SentMeansDrained(p, i);
      }
      return;
    }
    AllStopped(p);
  }

  lemma AllStopped(p: Pipeline)
    requires Inv(p) && p.readers != [] && p.fed == p.total
    requires forall i :: 0 <= i < |p.readers| ==> p.readers[i].Stopped?
    requires !p.senderDone ==> !p.senderAtTop && p.objectChan == [] && !p.objectsClosed
    ensures p.senderDone
  {
    assert p.readers[0].Stopped?;
    NobodyHolds(p.readers, 0);
  }

  /** The actions, each of them enabled in its turn, lead from `p` to `q`. */
  ghost predicate Leads(p: Pipeline, actions: seq<Action>, q: Pipeline)
    decreases |actions|
  {
    if actions == [] then p == q
    else Enabled(p, actions[0]) && Leads(Step(p, actions[0]), actions[1..], q)
  }

  /** A run of the whole pipeline, in any interleaving. */
  ghost predicate Run(total: nat, readers: nat, actions: seq<Action>, p: Pipeline) {
    Leads(Start(total, readers), actions, p)
  }

  lemma {:induction false} LeadsInv(p: Pipeline, actions: seq<Action>, q: Pipeline)
    requires Inv(p) && Leads(p, actions, q)
    ensures Inv(q) && q.total == p.total && |q.readers| == |p.readers|
    ensures Remaining(q) == Remaining(p) - |actions|
    decreases |actions|
  {
    if actions != [] {
      InvStep(p, actions[0]);
      RemainingStep(p, actions[0]);
      LeadsInv(Step(p, actions[0]), actions[1..], q);
    }
  }

  lemma RunInv(total: nat, readers: nat, actions: seq<Action>, p: Pipeline)
    requires Run(total, readers, actions, p)
    ensures Inv(p) && p.total == total && |p.readers| == readers
    ensures Remaining(p) == 5 * total + readers + 3 - |actions|
  {
    var start := Start(total, readers);
    InvStart(total, readers);
    NobodyHolds(start.readers, 0);
    AllActive(start.readers);
    LeadsInv(start, actions, p);
  }

  /** After any run: each entry is in one place, the counts add up, and no next operation panics. */
  lemma RunsAreSafe(total: nat, readers: nat, actions: seq<Action>, p: Pipeline)
    requires Run(total, readers, actions, p)
    ensures forall e: nat :: Places(p, e) == One(e < total)
    ensures (total - p.fed) + |p.updateChan| + Holders(p.readers) + |p.objectChan| + |p.sent| == total
    ensures forall a :: Enabled(p, a) ==> !Panics(p, a)
  {
    RunInv(total, readers, actions, p);
    forall a | Enabled(p, a) ensures !Panics(p, a) {
      NeverPanics(p, a);
    }
  }

  lemma {:induction false} AllActive(readers: seq<Reader>)
    requires forall i :: 0 <= i < |readers| ==> readers[i].Idle?
    ensures Active(readers) == |readers|
  {
    if readers != [] {
      AllActive(readers[1..]);
    }
  }

  /** Every interleaving that cannot go on has sent every entry exactly once, after the same number of operations. */
  lemma EveryEntrySentOnce(total: nat, readers: nat, actions: seq<Action>, p: Pipeline)
    requires readers >= 1 && Run(total, readers, actions, p)
    requires forall a :: !Enabled(p, a)
    ensures Finished(p)
    ensures |p.sent| == total && forall e: nat :: In(p.sent, e) == One(e < total)
    ensures |actions| == 5 * total + readers + 3
  {
    RunInv(total, readers, actions, p);
    if !(Finished(p) && p.updatesClosed) {
      var a := NeverStuck(p);
    }
    SentMeansDrained(p, 0);
    forall e: nat ensures In(p.sent, e) == One(e < total) {
      NobodyHolds(p.readers, e);
      assert Places(p, e) == One(e < total);
    }
    AllInactive(p.readers);
  }

  lemma {:induction false} AllInactive(readers: seq<Reader>)
    requires forall i :: 0 <= i < |readers| ==> readers[i].Stopped?
    ensures Active(readers) == 0
  {
    if readers != [] {
      AllInactive(readers[1..]);
    }
  }

  /** No interleaving runs longer than that. */
  lemma RunsEnd(total: nat, readers: nat, actions: seq<Action>, p: Pipeline)
    requires Run(total, readers, actions, p)
    ensures |actions| <= 5 * total + readers + 3
  {
    RunInv(total, readers, actions, p);
  }
}
