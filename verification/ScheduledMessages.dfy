/**
 * Scheduled messages: the rows and the delayed jobs that
 * apps/api/src/modules/scheduling/scheduling.service.ts keeps beside each other. Each operation
 * runs to completion at one instant `now`; a queued job fires at or after its time.
 */
module ScheduledMessages {
  import opened Wrappers
  import opened SendWindows

  datatype Status = SCHEDULED | CANCELED

  /** The content of a message stays abstract. */
  datatype Payload = Payload(to: string, kind: string, content: string)

  datatype Row = Row(instanceId: string, tenantId: string, payload: Payload, sendAt: int, status: Status)

  datatype Job = Job(instanceId: string, tenantId: string, payload: Payload, fireAt: int)

  /** `fired` remembers the ids whose job has left the queue by running. */
  datatype State = State(rows: map<string, Row>, queue: map<string, Job>, fired: set<string>)

  const EMPTY := State(map[], map[], {})

  datatype Error = InstanceNotFound | NotInFuture | NotFound | NotScheduled

  datatype Draft = Draft(instanceId: string, payload: Payload, scheduledAt: int)

  datatype Update = Update(scheduledAt: Option<int>, content: Option<string>, active: Option<bool>)

  // ---------------------------------------------------------------- operations on values

  /** `queue.add`: a job id that is already taken is left alone. */
  function Added(queue: map<string, Job>, id: string, job: Job): map<string, Job> {
    if id in queue then queue else queue[id := job]
  }

  function Created(s: State, id: string, tenantId: string, owned: bool, d: Draft, now: int): (State, Option<Error>) {
    if !owned then (s, Some(InstanceNotFound))
    else if d.scheduledAt <= now then (s, Some(NotInFuture))
    else
      var delay := d.scheduledAt - now;
      (s.(rows := s.rows[id := Row(d.instanceId, tenantId, d.payload, d.scheduledAt, SCHEDULED)],
          queue := Added(s.queue, id, Job(d.instanceId, tenantId, d.payload, now + delay))), None)
  }

  /** The draft with its time moved into the send window, on a server running in UTC. */
  function Windowed(d: Draft, window: Option<Window>): Draft {
    if window.Some? && window.value.enabled then
      d.(scheduledAt := Adjusted(d.scheduledAt, window.value, 0))
    else d
  }

  predicate Owns(s: State, tenantId: string, id: string) {
    id in s.rows && s.rows[id].tenantId == tenantId
  }

  function Updated(s: State, tenantId: string, id: string, u: Update, now: int): (State, Option<Error>) {
    if !Owns(s, tenantId, id) then (s, Some(NotFound))
    else if s.rows[id].status != SCHEDULED then (s, Some(NotScheduled))
    else if u.scheduledAt.Some? && u.scheduledAt.value <= now then (s, Some(NotInFuture))
    else
      var row := s.rows[id];
      var payload := if u.content.Some? then row.payload.(content := u.content.value) else row.payload;
      var sendAt := if u.scheduledAt.Some? then u.scheduledAt.value else row.sendAt;
      var stopped := u.active == Some(false);
      var queue :=
        if stopped then s.queue - {id}
        else if u.scheduledAt.Some? then s.queue[id := Job(row.instanceId, row.tenantId, payload, sendAt)]
        else s.queue;
      (s.(rows := s.rows[id := row.(payload := payload, sendAt := sendAt,
                                    status := if stopped then CANCELED else SCHEDULED)],
          queue := queue), None)
  }

  function Deleted(s: State, tenantId: string, id: string): (State, Option<Error>) {
    if !Owns(s, tenantId, id) then (s, Some(NotFound))
    else (s.(rows := s.rows[id := s.rows[id].(status := CANCELED)], queue := s.queue - {id}), None)
  }

  /** A worker takes a due job. */
  function Fired(s: State, id: string, now: int): State {
    if id in s.queue && s.queue[id].fireAt <= now then
      s.(queue := s.queue - {id}, fired := s.fired + {id})
    else s
  }

  // ---------------------------------------------------------------- the service

  class SchedulingService {
    var rows: map<string, Row>
    var queue: map<string, Job>
    var fired: set<string>

    function View(): State
      reads this
    {
      State(rows, queue, fired)
    }

    constructor ()
      ensures View() == EMPTY
    {
      rows, queue, fired := map[], map[], {};
    }

    method QueueAdd(id: string, job: Job)
      modifies this`queue
      ensures queue == Added(old(queue), id, job)
    {
      if id !in queue {
        queue := queue[id := job];
      }
    }

    method CreateScheduledMessage(id: string, tenantId: string, owned: bool, d: Draft, now: int)
      returns (error: Option<Error>)
      modifies this
      ensures (View(), error) == Created(old(View()), id, tenantId, owned, d, now)
    {
      if !owned {
        return Some(InstanceNotFound);
      }
      var sendAt := d.scheduledAt;
      if sendAt <= now {
        return Some(NotInFuture);
      }
      var delay := sendAt - now;
      rows := rows[id := Row(d.instanceId, tenantId, d.payload, sendAt, SCHEDULED)];
      QueueAdd(id, Job(d.instanceId, tenantId, d.payload, now + delay));
      return None;
    }

    method CreateSmartSchedule(id: string, tenantId: string, owned: bool, d: Draft, window: Option<Window>, now: int)
      returns (error: Option<Error>)
      requires window.Some? && window.value.enabled ==> Formats(window.value)
      modifies this
      ensures (View(), error) == Created(old(View()), id, tenantId, owned, Windowed(d, window), now)
    {
      if !owned {
        return Some(InstanceNotFound);
      }
      var sendAt := d.scheduledAt;
      if window.Some? && window.value.enabled {
        sendAt := AdjustToSendWindow(sendAt, window.value, 0);
      }
      if sendAt <= now {
        return Some(NotInFuture);
      }
      var delay := sendAt - now;
      rows := rows[id := Row(d.instanceId, tenantId, d.payload, sendAt, SCHEDULED)];
      QueueAdd(id, Job(d.instanceId, tenantId, d.payload, now + delay));
      return None;
    }

    method UpdateScheduledMessage(tenantId: string, id: string, u: Update, now: int)
      returns (error: Option<Error>)
      modifies this
      ensures (View(), error) == Updated(old(View()), tenantId, id, u, now)
    {
      if id !in rows || rows[id].tenantId != tenantId {
        return Some(NotFound);
      }
      var existing := rows[id];
      if existing.status != SCHEDULED {
        return Some(NotScheduled);
      }
      var updated := existing;
      if u.content.Some? {
        updated := updated.(payload := existing.payload.(content := u.content.value));
      }
      if u.scheduledAt.Some? {
        var newDate := u.scheduledAt.value;
        if newDate <= now {
          return Some(NotInFuture);
        }
        updated := updated.(sendAt := newDate);
        queue := queue - {id};
        var delay := newDate - now;
        var content := if u.content.Some? then u.content.value else existing.payload.content;
        QueueAdd(id, Job(existing.instanceId, tenantId, existing.payload.(content := content), now + delay));
        assert queue == old(queue)[id := queue[id]];
      }
      if u.active == Some(false) {
        updated := updated.(status := CANCELED);
        queue := queue - {id};
        assert queue == old(queue) - {id};
      }
      rows := rows[id := updated];
      return None;
    }

    method DeleteScheduledMessage(tenantId: string, id: string) returns (error: Option<Error>)
      modifies this
      ensures (View(), error) == Deleted(old(View()), tenantId, id)
    {
      if id !in rows || rows[id].tenantId != tenantId {
        return Some(NotFound);
      }
      queue := queue - {id};
      rows := rows[id := rows[id].(status := CANCELED)];
      return None;
    }
  }

  // ---------------------------------------------------------------- runs

  datatype Event =
    | Create(id: string, tenantId: string, owned: bool, draft: Draft, window: Option<Window>, now: int)
    | Edit(tenantId: string, id: string, update: Update, now: int)
    | Delete(tenantId: string, id: string)
    | Fire(id: string, now: int)

  function Step(s: State, e: Event): State {
    match e
    case Create(id, tenantId, owned, draft, window, now) =>
      Created(s, id, tenantId, owned, Windowed(draft, window), now).0
    case Edit(tenantId, id, update, now) => Updated(s, tenantId, id, update, now).0
    case Delete(tenantId, id) => Deleted(s, tenantId, id).0
    case Fire(id, now) => Fired(s, id, now)
  }

  function Run(events: seq<Event>): State {
    if events == [] then EMPTY else Step(Run(events[..|events| - 1]), events[|events| - 1])
  }

  /** Generated ids are new. */
  predicate FreshIds(events: seq<Event>) {
    forall i, j :: 0 <= i < j < |events| && events[i].Create? && events[j].Create? ==> events[i].id != events[j].id
  }

  /** The table and the queue agree. */
  predicate Consistent(s: State) {
    && (forall id <- s.queue ::
          && id in s.rows && s.rows[id].status == SCHEDULED
          && s.queue[id].fireAt == s.rows[id].sendAt
          && s.queue[id].instanceId == s.rows[id].instanceId && s.queue[id].tenantId == s.rows[id].tenantId
          && s.queue[id].payload.to == s.rows[id].payload.to && s.queue[id].payload.kind == s.rows[id].payload.kind)
    && (forall id <- s.rows :: s.rows[id].status == SCHEDULED ==> id in s.queue || id in s.fired)
  }

  lemma StepConsistent(s: State, e: Event)
    requires Consistent(s) && (e.Create? ==> e.id !in s.rows)
    ensures Consistent(Step(s, e))
  {
  }

  predicate CreatedBefore(events: seq<Event>, id: string) {
    exists e <- events :: e.Create? && e.id == id
  }

  /**
   * After any sequence of creates, smart creates, edits, deletes and firings, a queued job's row
   * is SCHEDULED and due at the job's time, and every SCHEDULED row has a job queued or fired.
   */
  lemma {:induction false} RunConsistent(events: seq<Event>)
    requires FreshIds(events)
    ensures Consistent(Run(events))
    ensures forall id <- Run(events).rows :: CreatedBefore(events, id)
  {
    if events != [] {
      var init, e := events[..|events| - 1], events[|events| - 1];
      RunConsistent(init);
      StepConsistent(Run(init), e);
      forall id <- Run(events).rows ensures CreatedBefore(events, id) {
        if id in Run(init).rows {
          var d :| d in init && d.Create? && d.id == id;
          assert d in events;
        } else {
          assert e in events;
        }
      }
    }
  }

  /** A worker never sends a cancelled message, nor one before its row's time. */
  lemma FiresOnlyWhenDue(events: seq<Event>, id: string, now: int)
    requires FreshIds(events)
    requires Fired(Run(events), id, now) != Run(events)
    ensures var s := Run(events);
      id in s.rows && s.rows[id].status == SCHEDULED && s.rows[id].sendAt <= now
  {
    RunConsistent(events);
  }

  lemma CreatesFreshRow(events: seq<Event>)
    requires FreshIds(events) && events != [] && events[|events| - 1].Create?
    ensures events[|events| - 1].id !in Run(events[..|events| - 1]).rows
  {
    RunConsistent(events[..|events| - 1]);
  }

  // ---------------------------------------------------------------- one message at a time

  /** What the events about one id make of it, whatever else goes on. */
  datatype Story = Unknown | Told(row: Row, job: Option<Job>, fired: bool)

  /** When a draft is due: for a window, at the next instant in it. */
  function DueAt(d: Draft, window: Option<Window>): int {
    match window
    case Some(w) => if w.enabled then NextInWindow(d.scheduledAt, w) else d.scheduledAt
    case None => d.scheduledAt
  }

  /** The answer to an event about a message with this story. */
  function Answer(story: Story, e: Event): Option<Error> {
    match e
    case Create(_, _, owned, draft, window, now) =>
      if !owned then Some(InstanceNotFound) else if DueAt(draft, window) > now then None else Some(NotInFuture)
    case Edit(tenantId, _, update, now) =>
      if story.Unknown? || story.row.tenantId != tenantId then Some(NotFound)
      else if story.row.status == CANCELED then Some(NotScheduled)
      else if update.scheduledAt.Some? && !(update.scheduledAt.value > now) then Some(NotInFuture)
      else None
    case Delete(tenantId, _) => if story.Told? && story.row.tenantId == tenantId then None else Some(NotFound)
    case Fire(_, _) => None
  }

  function Edited(row: Row, update: Update): Row {
    var payload :=
      match update.content
      case Some(content) => Payload(row.payload.to, row.payload.kind, content)
      case None => row.payload;
    Row(row.instanceId, row.tenantId, payload,
        if update.scheduledAt.Some? then update.scheduledAt.value else row.sendAt,
        if update.active == Some(false) then CANCELED else SCHEDULED)
  }

  function JobOf(row: Row): Job {
    Job(row.instanceId, row.tenantId, row.payload, row.sendAt)
  }

  function Continued(story: Story, e: Event): Story {
    if Answer(story, e).Some? then story
    else
      match e
      case Create(_, tenantId, _, draft, window, _) =>
        var row := Row(draft.instanceId, tenantId, draft.payload, DueAt(draft, window), SCHEDULED);
        Told(row, Some(JobOf(row)), false)
      case Edit(_, _, update, _) =>
        var row := Edited(story.row, update);
        var job :=
          if row.status == CANCELED then None
          else if update.scheduledAt.Some? then Some(JobOf(row))
          else story.job;
        Told(row, job, story.fired)
      case Delete(_, _) => Told(story.row.(status := CANCELED), None, story.fired)
      case Fire(_, now) =>
        if story.Told? && story.job.Some? && story.job.value.fireAt <= now then Told(story.row, None, true) else story
  }

  function StoryOf(events: seq<Event>, id: string): Story {
    if events == [] then Unknown
    else
      var init, e := events[..|events| - 1], events[|events| - 1];
      if e.id == id then Continued(StoryOf(init, id), e) else StoryOf(init, id)
  }

  /** The row, the job and the firing of one id, as a story. */
  function StoryIn(s: State, id: string): Story {
    if id !in s.rows then Unknown
    else Told(s.rows[id], if id in s.queue then Some(s.queue[id]) else None, id in s.fired)
  }

  /** The error a service method returns. */
  function ErrorOf(s: State, e: Event): Option<Error> {
    match e
    case Create(id, tenantId, owned, draft, window, now) =>
      Created(s, id, tenantId, owned, Windowed(draft, window), now).1
    case Edit(tenantId, id, update, now) => Updated(s, tenantId, id, update, now).1
    case Delete(tenantId, id) => Deleted(s, tenantId, id).1
    case Fire(_, _) => None
  }

  lemma DueAsWindowed(d: Draft, window: Option<Window>)
    ensures Windowed(d, window) == Draft(d.instanceId, d.payload, DueAt(d, window))
  {
  }

  predicate KnownIds(s: State) {
    (forall id <- s.queue :: id in s.rows) && (forall id <- s.fired :: id in s.rows)
  }

  lemma StepContinues(s: State, e: Event, id: string)
    requires KnownIds(s) && Consistent(s) && (e.Create? ==> e.id !in s.rows)
    ensures KnownIds(Step(s, e))
    ensures StoryIn(Step(s, e), id) == if e.id == id then Continued(StoryIn(s, id), e) else StoryIn(s, id)
    ensures ErrorOf(s, e) == Answer(StoryIn(s, e.id), e)
  {
    match e {
      case Create(_, _, _, draft, window, _) => DueAsWindowed(draft, window);
      case Edit(_, _, _, _) =>
      case Delete(_, _) =>
      case Fire(_, _) =>
    }
  }

  /**
   * Refinement: table, queue and firings are, id by id, the stories of that id's own events, and
   * every answer is that of the story.
   */
  lemma {:induction false} RunTellsStories(events: seq<Event>, id: string)
    requires FreshIds(events)
    ensures StoryIn(Run(events), id) == StoryOf(events, id) && KnownIds(Run(events))
  {
    if events != [] {
      var init, e := events[..|events| - 1], events[|events| - 1];
      RunTellsStories(init, id);
      RunConsistent(init);
      if e.Create? {
        CreatesFreshRow(events);
      }
      StepContinues(Run(init), e, id);
    }
  }

  lemma AnswersAreStories(events: seq<Event>, e: Event)
    requires FreshIds(events + [e])
    ensures ErrorOf(Run(events), e) == Answer(StoryOf(events, e.id), e)
  {
    var more := events + [e];
    assert more[..|events|] == events;
    assert forall i :: 0 <= i < |events| ==> more[i] == events[i];
    RunTellsStories(events, e.id);
    RunConsistent(events);
    if e.Create? {
      CreatesFreshRow(more);
    }
    StepContinues(Run(events), e, e.id);
  }

  /** A cancelled message without a job stays that way, whatever is asked of it. */
  lemma {:induction false} CanceledForGood(events: seq<Event>, more: seq<Event>, id: string)
    requires FreshIds(events + more)
    requires var s := StoryOf(events, id); s.Told? && s.row.status == CANCELED && s.job == None
    ensures StoryOf(events + more, id) == StoryOf(events, id)
  {
    if more == [] {
      assert events + more == events;
    } else {
      var all, m := events + more, |more| - 1;
      assert all[..|all| - 1] == events + more[..m];
      assert all[|all| - 1] == more[m];
      FreshPrefix(all);
      CanceledForGood(events, more[..m], id);
      if more[m].Create? && more[m].id == id {
        CreatesFreshRow(all);
        RunTellsStories(events + more[..m], id);
        assert false;
      }
    }
  }

  lemma FreshPrefix(events: seq<Event>)
    requires FreshIds(events) && events != []
    ensures FreshIds(events[..|events| - 1])
  {
  }

  /**
   * A delete by the owner answers without an error and is final: in every continuation the row
   * is CANCELED, nothing is queued for it, and it fires no more than it already had.
   */
  lemma DeletedForGood(events: seq<Event>, tenantId: string, id: string, more: seq<Event>)
    requires FreshIds(events + [Delete(tenantId, id)] + more)
    requires Owns(Run(events), tenantId, id)
    ensures Deleted(Run(events), tenantId, id).1 == None
    ensures var s := Run(events + [Delete(tenantId, id)] + more);
      && id in s.rows && s.rows[id] == Run(events).rows[id].(status := CANCELED)
      && id !in s.queue
      && (id in s.fired <==> id in Run(events).fired)
  {
    var e := Delete(tenantId, id);
    var upto := events + [e];
    assert forall i :: 0 <= i < |upto| ==> (upto + more)[i] == upto[i];
    assert forall i :: 0 <= i < |events| ==> upto[i] == events[i];
    assert upto[..|events|] == events;
    RunTellsStories(events, id);
    assert StoryOf(upto, id) == Continued(StoryOf(events, id), e);
    CanceledForGood(upto, more, id);
    RunTellsStories(upto + more, id);
  }

  // ---------------------------------------------------------------- which content is sent

  /** The content that an event puts on the queue for `id`. */
  function Books(s: State, e: Event, id: string): Option<string> {
    match e
    case Create(i, tenantId, owned, draft, window, now) =>
      if i == id && Created(s, i, tenantId, owned, Windowed(draft, window), now).1 == None
      then Some(draft.payload.content) else None
    case Edit(tenantId, i, update, now) =>
      if i == id && Updated(s, tenantId, i, update, now).1 == None && update.scheduledAt.Some? then
        Some(if update.content.Some? then update.content.value else s.rows[i].payload.content)
      else None
    case _ => None
  }

  /** The content that an event writes to the row of `id`. */
  function Writes(s: State, e: Event, id: string): Option<string> {
    match e
    case Create(_, _, _, _, _, _) => Books(s, e, id)
    case Edit(tenantId, i, update, now) =>
      if i == id && Updated(s, tenantId, i, update, now).1 == None then update.content else None
    case _ => None
  }

  function LastBooked(events: seq<Event>, id: string): Option<string> {
    if events == [] then None
    else
      var init, e := events[..|events| - 1], events[|events| - 1];
      if Books(Run(init), e, id).Some? then Books(Run(init), e, id) else LastBooked(init, id)
  }

  function LastWritten(events: seq<Event>, id: string): Option<string> {
    if events == [] then None
    else
      var init, e := events[..|events| - 1], events[|events| - 1];
      if Writes(Run(init), e, id).Some? then Writes(Run(init), e, id) else LastWritten(init, id)
  }

  lemma StepContent(s: State, e: Event, id: string)
    requires Consistent(s) && (e.Create? ==> e.id !in s.rows)
    ensures var t := Step(s, e);
      && (id in t.rows ==>
            if Writes(s, e, id).Some? then t.rows[id].payload.content == Writes(s, e, id).value
            else id in s.rows && t.rows[id].payload.content == s.rows[id].payload.content)
      && (id in t.queue ==>
            if Books(s, e, id).Some? then t.queue[id].payload.content == Books(s, e, id).value
            else id in s.queue && t.queue[id].payload.content == s.queue[id].payload.content)
  {
    match e {
      case Create(_, _, _, _, _, _) =>
      case Edit(_, _, _, _) =>
      case Delete(_, _) =>
      case Fire(_, _) =>
    }
  }

  /**
   * A row shows the last content written, a queued job the content of the last reschedule: an
   * edit of the content alone does not reach the job.
   */
  lemma {:induction false} ContentAsOfLastReschedule(events: seq<Event>, id: string)
    requires FreshIds(events)
    ensures id in Run(events).rows ==> Some(Run(events).rows[id].payload.content) == LastWritten(events, id)
    ensures id in Run(events).queue ==> Some(Run(events).queue[id].payload.content) == LastBooked(events, id)
  {
    if events != [] {
      var init, e := events[..|events| - 1], events[|events| - 1];
      ContentAsOfLastReschedule(init, id);
      RunConsistent(init);
      if e.Create? {
        CreatesFreshRow(events);
      }
      StepContent(Run(init), e, id);
    }
  }

  /** A content-only edit of a queued message makes row and job differ: the old content is sent. */
  lemma ContentEditNotSent(s: State, tenantId: string, id: string, content: string, now: int)
    requires Consistent(s) && Owns(s, tenantId, id) && id in s.queue
    ensures var (t, error) := Updated(s, tenantId, id, Update(None, Some(content), None), now);
      && error == None && id in t.queue
      && t.queue[id] == s.queue[id]
      && (t.queue[id].payload == t.rows[id].payload <==> content == s.queue[id].payload.content)
  {
  }

  /** A smart schedule in an open window queues a job that the worker's check lets through on time. */
  lemma SmartScheduleFiresInWindow(s: State, id: string, tenantId: string, owned: bool, d: Draft, w: Window, now: int)
    requires id !in s.queue && w.enabled && Opens(w)
    ensures var (t, error) := Created(s, id, tenantId, owned, Windowed(d, Some(w)), now);
      error == None ==>
        && id in t.queue
        && d.scheduledAt <= t.queue[id].fireAt
        && CheckSendWindow(Some(w), t.queue[id].fireAt)
  {
    NextIsLeast(d.scheduledAt, w);
  }
}
