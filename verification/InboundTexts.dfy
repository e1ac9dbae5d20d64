/**
 * The inbound pipeline with its buffer in place: deduplication, the stages before the buffer,
 * the buffer, the stages after it and forwarding (apps/worker/src/pipeline). A flush empties the
 * stored buffer before the later stages run, so what becomes of the texts is a question to both
 * models at once.
 */
module InboundTexts {
  import opened Wrappers
  import opened JsText
  import B = Buffering
  import P = InboundPipeline

  /** One attempt of a job, with what the stages around the buffer do. */
  datatype Job = Job(
    instanceId: string, messageKey: string, getAt: int, setAt: int,
    before: seq<P.StageOutcome>,
    remoteJid: Option<string>, isText: bool, message: Option<B.RawMessage>, at: B.Clock,
    after: seq<P.StageOutcome>, configs: seq<P.Config>, addThrowsAt: Option<nat>)

  /** The deduplication keys and the buffers. */
  datatype World = World(keys: P.Store, buffers: B.Store)

  const EMPTY := World(map[], map[])

  function ContextOf(j: Job): B.Context {
    B.Context(j.instanceId, j.remoteJid, j.isText, j.message)
  }

  function EventOf(j: Job): B.Event {
    B.Event(ContextOf(j), j.at)
  }

  function AttemptOf(j: Job, middle: seq<P.StageOutcome>): P.Attempt {
    P.Attempt(j.instanceId, j.messageKey, j.getAt, j.setAt, middle, None, j.configs, j.addThrowsAt)
  }

  predicate Duplicate(w: World, j: Job) {
    P.Duplicate(w.keys, AttemptOf(j, j.before))
  }

  /** The job gets as far as the buffer. */
  predicate Reaches(w: World, j: Job) {
    !Duplicate(w, j) && P.StagesVerdict(j.before) == P.Completed
  }

  function BufferVerdict(w: World, j: Job): B.Verdict {
    B.Executed(w.buffers, ContextOf(j), j.at).1
  }

  /** The flushed text, if the buffer leaves one in the context. */
  function TextLeft(verdict: B.Verdict): Option<string> {
    match verdict
    case Flush(text, _) => Some(text)
    case _ => None
  }

  /** The attempt with the buffer among its stages: a text that is held back halts it. */
  function Whole(w: World, j: Job): P.Attempt {
    var verdict := BufferVerdict(w, j);
    AttemptOf(j, j.before + [if verdict.Hold? then P.Halt else P.Continue] + j.after).(text := TextLeft(verdict))
  }

  function Done(w: World, j: Job): World {
    World(P.Deduped(w.keys, AttemptOf(j, j.before)),
          if Reaches(w, j) then B.Executed(w.buffers, ContextOf(j), j.at).0 else w.buffers)
  }

  lemma {:induction false} StagesInTurn(xs: seq<P.StageOutcome>, ys: seq<P.StageOutcome>)
    ensures P.StagesVerdict(xs + ys)
         == if P.StagesVerdict(xs) == P.Completed then P.StagesVerdict(ys) else P.StagesVerdict(xs)
  {
    if xs == [] {
      assert xs + ys == ys;
    } else {
      assert (xs + ys)[1..] == xs[1..] + ys;
      StagesInTurn(xs[1..], ys);
    }
  }

  lemma WholeVerdict(w: World, j: Job)
    ensures P.StagesVerdict(Whole(w, j).middle)
         == if P.StagesVerdict(j.before) != P.Completed then P.StagesVerdict(j.before)
            else if BufferVerdict(w, j).Hold? then P.Halted
            else P.StagesVerdict(j.after)
  {
    var outcome := if BufferVerdict(w, j).Hold? then P.Halt else P.Continue;
    StagesInTurn(j.before + [outcome], j.after);
    StagesInTurn(j.before, [outcome]);
    assert P.StagesVerdict([outcome]) == if outcome == P.Halt then P.Halted else P.StagesVerdict([outcome][1..]);
  }

  class InboundWorker {
    const pipeline: P.MessagePipeline
    const buffer: B.MessageBufferStage

    constructor ()
      ensures fresh(pipeline) && fresh(buffer) && View() == EMPTY && pipeline.webhookQueue == []
    {
      pipeline := new P.MessagePipeline();
      buffer := new B.MessageBufferStage();
    }

    function View(): World
      reads pipeline, buffer
    {
      World(pipeline.redis, buffer.redis)
    }

    /** One job through all stages: the pipeline of the whole attempt, and the buffer if it gets there. */
    method Process(j: Job) returns (verdict: P.Verdict)
      requires B.NonEmptyBuffers(buffer.redis)
      modifies pipeline, buffer
      ensures View() == Done(old(View()), j)
      ensures verdict == P.AttemptVerdict(Duplicate(old(View()), j), Whole(old(View()), j))
      ensures pipeline.webhookQueue == old(pipeline.webhookQueue)
        + if Duplicate(old(View()), j) then [] else P.Delivered(Whole(old(View()), j))
      ensures B.NonEmptyBuffers(buffer.redis)
    {
      ghost var w := View();
      WholeVerdict(w, j);
      var a := AttemptOf(j, j.before);
      var outcome := pipeline.Deduplicate(a);
      if outcome == P.Halt {
        return P.Halted;
      }
      verdict := P.RunStages(j.before);
      if verdict != P.Completed {
        return;
      }
      var buffered := buffer.Execute(ContextOf(j), j.at);
      if buffered.Hold? {
        return P.Halted;
      }
      verdict := P.RunStages(j.after);
      if verdict != P.Completed {
        return;
      }
      a := a.(text := TextLeft(buffered));
      assert P.Forwarded(a) == P.Forwarded(Whole(w, j)) && P.DedupKey(a) == P.DedupKey(Whole(w, j));
      outcome := pipeline.Forward(a);
      return if outcome == P.Throw then P.Threw else P.Completed;
    }
  }

  // ---------------------------------------------------------------- runs

  /** Attempts in the order they are processed. */
  datatype Trace = Start | Then(earlier: Trace, job: Job)

  function Run(t: Trace): World {
    match t
    case Start => EMPTY
    case Then(earlier, j) => Done(Run(earlier), j)
  }

  function Attempts(t: Trace): P.Trace {
    match t
    case Start => P.Start
    case Then(earlier, j) => P.Then(Attempts(earlier), Whole(Run(earlier), j))
  }

  function Events(t: Trace): seq<B.Event> {
    match t
    case Start => []
    case Then(earlier, j) => Events(earlier) + if Reaches(Run(earlier), j) then [EventOf(j)] else []
  }

  /** A run of the whole is a run of each model: what either proves of its runs holds here. */
  lemma {:induction false} RunProjects(t: Trace)
    ensures Run(t).keys == P.Run(Attempts(t))
    ensures Run(t).buffers == B.Run(Events(t))
  {
    if t.Then? {
      RunProjects(t.earlier);
      var events, e := Events(t.earlier), EventOf(t.job);
      if Reaches(Run(t.earlier), t.job) {
        assert (events + [e])[..|events|] == events;
      } else {
        assert events + [] == events;
      }
    }
  }

  // ---------------------------------------------------------------- what becomes of the texts

  /** A new message of the sender `key` with a text. */
  predicate NewText(w: World, j: Job, key: string) {
    !Duplicate(w, j) && j.isText && B.Touches(EventOf(j), key)
  }

  /** With retries within the time to live, a message is new in its first attempt only. */
  lemma {:induction false} NewIsFirst(t: Trace, j: Job)
    requires P.RetriedInTime(Attempts(Then(t, j)), P.DedupKey(AttemptOf(j, j.before)))
    ensures Duplicate(Run(t), j) <==> P.First(Attempts(t), P.DedupKey(AttemptOf(j, j.before))).Some?
  {
    RunProjects(t);
    P.OnlyFirstAttemptForwards(Attempts(t), P.DedupKey(AttemptOf(j, j.before)));
  }

  /** Every webhook gets what the job flushes. */
  predicate Arrives(w: World, j: Job) {
    var a := Whole(w, j);
    a.configs == [] || P.AttemptVerdict(false, a) == P.Completed
  }

  lemma ArrivesIff(w: World, j: Job)
    ensures Arrives(w, j) <==> P.Delivered(Whole(w, j)) == P.AllDeliveries(Whole(w, j))
  {
    var a := Whole(w, j);
    assert |P.Delivered(a)| == |a.configs| ==> P.Delivered(a) == P.AllDeliveries(a);
  }

  /** The job flushes the buffer of `key`. */
  predicate Flushes(w: World, j: Job, key: string) {
    Reaches(w, j) && B.Touches(EventOf(j), key) && BufferVerdict(w, j).Flush?
  }

  function FlushedCount(w: World, j: Job): nat {
    match BufferVerdict(w, j)
    case Flush(_, count) => count
    case _ => 0
  }

  /** The job drops what it finds in the buffer of `key`. */
  predicate Drops(w: World, j: Job, key: string) {
    Reaches(w, j) && B.Drops(w.buffers, EventOf(j), key)
  }

  /** The texts of `key` that were received, each with its message's new attempt. */
  function Received(t: Trace, key: string): nat {
    match t
    case Start => 0
    case Then(earlier, j) => Received(earlier, key) + if NewText(Run(earlier), j, key) then 1 else 0
  }

  /** The texts of `key` in flushes that reached every webhook. */
  function Arrived(t: Trace, key: string): nat {
    match t
    case Start => 0
    case Then(earlier, j) =>
      var w := Run(earlier);
      Arrived(earlier, key) + if Flushes(w, j, key) && Arrives(w, j) then FlushedCount(w, j) else 0
  }

  /** What one job loses: its own text before the buffer, the buffer it drops, the group it flushes in vain. */
  function LostBy(w: World, j: Job, key: string): nat {
    (if NewText(w, j, key) && !Reaches(w, j) then 1 else 0)
    + (if Drops(w, j, key) then B.StoredCount(w.buffers, key) else 0)
    + (if Flushes(w, j, key) && !Arrives(w, j) then FlushedCount(w, j) else 0)
  }

  function Lost(t: Trace, key: string): nat {
    match t
    case Start => 0
    case Then(earlier, j) => Lost(earlier, key) + LostBy(Run(earlier), j, key)
  }

  lemma JobAccounted(w: World, j: Job, key: string)
    ensures B.StoredCount(w.buffers, key) + (if NewText(w, j, key) then 1 else 0)
         == B.StoredCount(Done(w, j).buffers, key) + LostBy(w, j, key)
          + (if Flushes(w, j, key) && Arrives(w, j) then FlushedCount(w, j) else 0)
  {
    if Reaches(w, j) {
      B.StepAccounted(w.buffers, EventOf(j), key);
    }
  }

  /** Every text received has reached every webhook, is stored or has been lost by some job. */
  lemma {:induction false} TextsAccounted(t: Trace, key: string)
    ensures Received(t, key) == Arrived(t, key) + B.StoredCount(Run(t).buffers, key) + Lost(t, key)
  {
    if t.Then? {
      TextsAccounted(t.earlier, key);
      JobAccounted(Run(t.earlier), t.job, key);
    }
  }

  /** The job loses nothing of its sender's. */
  predicate LosesNothing(w: World, j: Job, key: string) {
    && (NewText(w, j, key) ==> Reaches(w, j))
    && !Drops(w, j, key)
    && (Flushes(w, j, key) ==> Arrives(w, j))
  }

  /**
   * No new text stopped before the buffer, no buffer found late or by another type, and no
   * flush whose job failed or halted before its last webhook.
   */
  predicate Lossless(t: Trace, key: string) {
    t.Then? ==>
      Lossless(t.earlier, key) && LosesNothing(Run(t.earlier), t.job, key)
  }

  lemma LosesIff(t: Trace, j: Job, key: string)
    ensures LostBy(Run(t), j, key) == 0 <==> LosesNothing(Run(t), j, key)
  {
    RunProjects(t);
    B.StoredIsNonEmpty(Events(t), key);
  }

  lemma {:induction false} LostNoneIff(t: Trace, key: string)
    ensures Lost(t, key) == 0 <==> Lossless(t, key)
  {
    if t.Then? {
      LostNoneIff(t.earlier, key);
      LosesIff(t.earlier, t.job, key);
    }
  }

  /**
   * When every text received reaches the webhooks: at an instant, each has arrived at every
   * webhook or can still be read from the buffer exactly when no job has lost any and the stored
   * buffer has not expired in silence.
   */
  lemma EveryTextArrivesIff(t: Trace, key: string, now: int)
    ensures Arrived(t, key) + B.LiveCount(Run(t).buffers, key, now) == Received(t, key) <==>
      && Lossless(t, key)
      && (key in Run(t).buffers ==> now < Run(t).buffers[key].expireAt)
  {
    TextsAccounted(t, key);
    LostNoneIff(t, key);
    RunProjects(t);
    B.StoredIsNonEmpty(Events(t), key);
  }

  // ---------------------------------------------------------------- which texts arrive

  function StoredTexts(store: B.Store, key: string): seq<string> {
    if key in store then B.Texts(store[key].state.messages) else []
  }

  /** The texts of `key` that were received, in order. */
  function ReceivedTexts(t: Trace, key: string): seq<string> {
    match t
    case Start => []
    case Then(earlier, j) =>
      ReceivedTexts(earlier, key) + OwnTexts(Run(earlier), j, key)
  }

  /** The lines of the deliveries of `key` that reached every webhook, in order. */
  function ArrivedTexts(t: Trace, key: string): seq<string> {
    match t
    case Start => []
    case Then(earlier, j) =>
      ArrivedTexts(earlier, key) + ArrivedLines(Run(earlier), j, key)
  }

  /** All texts are of one line. */
  predicate OneLineJobs(t: Trace) {
    t.Then? ==> OneLineJobs(t.earlier) && '\n' !in B.TextOf(ContextOf(t.job))
  }

  /** What a job in time does to the texts of its sender, when none holds a line break. */
  lemma TextsMove(w: World, j: Job, key: string)
    requires Reaches(w, j) && !Drops(w, j, key)
    requires B.OneLiners(StoredTexts(w.buffers, key)) && '\n' !in B.TextOf(ContextOf(j))
    ensures var after := StoredTexts(Done(w, j).buffers, key);
      var own := if NewText(w, j, key) then [B.TextOf(ContextOf(j))] else [];
      && B.OneLiners(after)
      && StoredTexts(w.buffers, key) + own
           == if Flushes(w, j, key) then Split(Whole(w, j).text.value, '\n') + after else after
  {
    if NewText(w, j, key) {
      var text := B.TextOf(ContextOf(j));
      var messages := B.Loaded(w.buffers, key, j.at.load) + [B.Item(text, j.at.push)];
      assert B.Texts(messages) == StoredTexts(w.buffers, key) + [text];
      B.JoinSplits(messages);
    } else {
      assert StoredTexts(w.buffers, key) + [] == StoredTexts(w.buffers, key);
    }
  }

  /** The texts that a job receives, and the lines it brings to every webhook. */
  function OwnTexts(w: World, j: Job, key: string): seq<string> {
    if NewText(w, j, key) then [B.TextOf(ContextOf(j))] else []
  }

  function ArrivedLines(w: World, j: Job, key: string): seq<string> {
    if Flushes(w, j, key) && Arrives(w, j) then Split(Whole(w, j).text.value, '\n') else []
  }

  lemma TextsStep(w: World, j: Job, key: string)
    requires LosesNothing(w, j, key)
    requires B.OneLiners(StoredTexts(w.buffers, key)) && '\n' !in B.TextOf(ContextOf(j))
    ensures var after := StoredTexts(Done(w, j).buffers, key);
      B.OneLiners(after) && StoredTexts(w.buffers, key) + OwnTexts(w, j, key) == ArrivedLines(w, j, key) + after
  {
    if Reaches(w, j) {
      TextsMove(w, j, key);
    }
  }

  lemma Regroup(received: seq<string>, arrived: seq<string>, stored: seq<string>,
    own: seq<string>, lines: seq<string>, after: seq<string>)
    requires received == arrived + stored && stored + own == lines + after
    ensures received + own == (arrived + lines) + after
  {
    assert received + own == arrived + (stored + own);
  }

  /**
   * Without losses the webhooks get every text, unchanged and in the order received: the lines of
   * the deliveries, and then the texts still stored, are the texts received.
   */
  lemma {:induction false} TextsArriveInOrder(t: Trace, key: string)
    requires Lossless(t, key) && OneLineJobs(t)
    ensures ReceivedTexts(t, key) == ArrivedTexts(t, key) + StoredTexts(Run(t).buffers, key)
    ensures B.OneLiners(StoredTexts(Run(t).buffers, key))
  {
    if t.Then? {
      var w, j := Run(t.earlier), t.job;
      TextsArriveInOrder(t.earlier, key);
      TextsStep(w, j, key);
      Regroup(ReceivedTexts(t.earlier, key), ArrivedTexts(t.earlier, key), StoredTexts(w.buffers, key),
              OwnTexts(w, j, key), ArrivedLines(w, j, key), StoredTexts(Done(w, j).buffers, key));
    }
  }

  /** Every delivery of a job that flushes and runs to the end carries the flushed text, one for each webhook. */
  lemma DeliveriesCarryFlush(w: World, j: Job, key: string)
    requires Flushes(w, j, key) && Arrives(w, j)
    ensures var made := P.Delivered(Whole(w, j));
      && |made| == |j.configs|
      && forall i :: 0 <= i < |made| ==>
           made[i].config == j.configs[i] && made[i].text == Some(BufferVerdict(w, j).text)
  {
    ArrivesIff(w, j);
  }

  /** A text held back is forwarded to nobody yet. */
  lemma HeldIsNotForwarded(w: World, j: Job)
    requires Reaches(w, j) && BufferVerdict(w, j).Hold?
    ensures P.Delivered(Whole(w, j)) == [] && P.AttemptVerdict(false, Whole(w, j)) == P.Halted
  {
    WholeVerdict(w, j);
  }

  // ---------------------------------------------------------------- losses are final

  predicate Extends(u: Trace, t: Trace) {
    u == t || (u.Then? && Extends(u.earlier, t))
  }

  /** What has been lost stays lost, whatever is retried or written later. */
  lemma {:induction false} LossIsFinal(t: Trace, u: Trace, key: string)
    requires Extends(u, t)
    ensures Arrived(u, key) + B.StoredCount(Run(u).buffers, key) + Lost(t, key) <= Received(u, key)
    decreases u
  {
    TextsAccounted(u, key);
    LostGrows(t, u, key);
  }

  lemma {:induction false} LostGrows(t: Trace, u: Trace, key: string)
    requires Extends(u, t)
    ensures Lost(t, key) <= Lost(u, key)
    decreases u
  {
    if u != t {
      LostGrows(t, u.earlier, key);
    }
  }

  /**
   * A job that flushes a group and then fails loses the whole group: its retries are duplicates,
   * and the jobs of the earlier texts have ended as halted.
   */
  lemma FailedFlushLosesGroup(t: Trace, j: Job, u: Trace, key: string)
    requires Flushes(Run(t), j, key) && !Arrives(Run(t), j) && Extends(u, Then(t, j))
    ensures FlushedCount(Run(t), j) == B.LiveCount(Run(t).buffers, key, j.at.load) + 1
    ensures Arrived(u, key) + B.StoredCount(Run(u).buffers, key) + FlushedCount(Run(t), j) <= Received(u, key)
  {
    LossIsFinal(Then(t, j), u, key);
  }
}
