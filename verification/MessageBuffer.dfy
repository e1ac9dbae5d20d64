/**
 * The inbound text buffer of apps/worker/src/pipeline/stages/buffer.stage.ts, kept in Redis per
 * instance and sender, and the pure segmenter it refines. Messages of one sender are processed
 * one after the other.
 */
module Buffering {
  import opened Wrappers
  import opened JsText

  const FLUSH_TIMEOUT_MS := 3000
  const MAX_BUFFERED_MESSAGES := 10
  const BUFFER_TTL_SECONDS := 30

  datatype Item = Item(text: string, timestamp: int)

  datatype BufferState = BufferState(messages: seq<Item>, lastActivity: int)

  /** A Redis string with its expiry in milliseconds. */
  datatype Entry = Entry(state: BufferState, expireAt: int)

  type Store = map<string, Entry>

  datatype RawMessage = RawMessage(conversation: Option<string>, extendedText: Option<string>)

  datatype Context = Context(
    instanceId: string, remoteJid: Option<string>, isText: bool, message: Option<RawMessage>)

  /** When one execution read the buffer, stamped the text, tested the gap and saved. */
  datatype Clock = Clock(load: int, push: int, check: int, save: int)

  predicate Ticks(c: Clock) {
    c.load <= c.push <= c.check <= c.save
  }

  /** The context goes on unchanged, goes on with the flushed text, or the pipeline halts. */
  datatype Verdict = PassOn | Flush(text: string, count: nat) | Hold

  // ---------------------------------------------------------------- text tests

  predicate EndsSentence(text: string) {
    var t := Trim(text);
    t != [] && t[|t| - 1] in {'.', '!', '?'}
  }

  function ExtractText(message: Option<RawMessage>): Option<string> {
    if message.None? then None
    else if message.value.conversation.Some? then message.value.conversation
    else if message.value.extendedText.Some? && message.value.extendedText.value != "" then
      message.value.extendedText
    else None
  }

  function Join(items: seq<Item>): string {
    if items == [] then ""
    else if |items| == 1 then items[0].text
    else items[0].text + "\n" + Join(items[1..])
  }

  predicate ShouldFlush(messages: seq<Item>, now: int)
    requires messages != []
  {
    var n := |messages|;
    || n >= MAX_BUFFERED_MESSAGES
    || EndsSentence(messages[n - 1].text)
    || (n > 1 && now - messages[n - 2].timestamp >= FLUSH_TIMEOUT_MS)
  }

  lemma EndOf(text: string, front: string, t: string, back: string) returns (n: int)
    requires text == front + (t + back) && AllSpace(front) && AllSpace(back)
    requires t != [] ==> !IsSpace(t[|t| - 1])
    ensures t == [] ==> n == -1 && AllSpace(text)
    ensures t != [] ==> 0 <= n < |text| && text[n] == t[|t| - 1] && !IsSpace(text[n]) && AllSpace(text[n + 1..])
  {
    n := if t == [] then -1 else |front| + |t| - 1;
    if t != [] {
      assert text[n + 1..] == back;
    }
  }

  lemma LastNonSpace(text: string) returns (n: int)
    ensures Trim(text) == [] ==> n == -1 && AllSpace(text)
    ensures Trim(text) != [] ==>
      && 0 <= n < |text| && text[n] == Trim(text)[|Trim(text)| - 1]
      && !IsSpace(text[n]) && AllSpace(text[n + 1..])
  {
    var front := TrimStartCuts(text);
    var back := TrimEndCuts(TrimStart(text));
    n := EndOf(text, front, Trim(text), back);
  }

  /** A text ends a sentence when its last character that is no space is a full stop, `!` or `?`. */
  lemma EndsSentenceIff(text: string)
    ensures EndsSentence(text) <==>
      exists n :: 0 <= n < |text| && text[n] in {'.', '!', '?'} && AllSpace(text[n + 1..])
  {
    var n := LastNonSpace(text);
    if m :| 0 <= m < |text| && text[m] in {'.', '!', '?'} && AllSpace(text[m + 1..]) {
      assert !IsSpace(text[m]) && text[m] in text;
      assert m == n;
    }
  }

  /** The text of a message is its conversation, even an empty one, or else its extended text. */
  lemma TextIsFirstPresent(conversation: string, extended: Option<string>)
    ensures ExtractText(Some(RawMessage(Some(conversation), extended))) == Some(conversation)
    ensures ExtractText(Some(RawMessage(None, extended)))
         == if extended == Some("") then None else extended
    ensures ExtractText(None) == None
  {
  }

  function Texts(items: seq<Item>): seq<string> {
    seq(|items|, i requires 0 <= i < |items| => items[i].text)
  }

  /** No text holds the line break that joins them. */
  predicate OneLiners(texts: seq<string>) {
    forall t <- texts :: '\n' !in t
  }

  /** The joined text is the texts of the group, one a line. */
  lemma {:induction false} JoinSplits(items: seq<Item>)
    requires items != [] && OneLiners(Texts(items))
    ensures Split(Join(items), '\n') == Texts(items)
  {
    var first := items[0].text;
    assert Texts(items)[0] == first;
    if |items| == 1 {
      SplitNone(first, '\n');
      assert Texts(items) == [first];
    } else {
      var rest := items[1..];
      forall t | t in Texts(rest) ensures '\n' !in t {
        var i :| 0 <= i < |rest| && Texts(rest)[i] == t;
        assert Texts(items)[i + 1] == t;
      }
      JoinSplits(rest);
      assert Join(items) == first + ['\n'] + Join(rest);
      SplitFirst(first, '\n', Join(rest));
      assert Texts(items) == [first] + Texts(rest);
    }
  }

  // ---------------------------------------------------------------- the stage

  /** Reading a key drops it if it has expired. */
  function Purged(store: Store, key: string, now: int): Store {
    if key in store && now >= store[key].expireAt then store - {key} else store
  }

  function Loaded(store: Store, key: string, now: int): seq<Item> {
    if key in Purged(store, key, now) then store[key].state.messages else []
  }

  function BufferKey(instanceId: string, sender: string): string {
    "buffer:" + instanceId + ":" + sender
  }

  /** Instance ids hold no colon, so a buffer stands for one instance and one sender. */
  lemma BufferKeysDiffer(a: string, x: string, b: string, y: string)
    requires ':' !in a && ':' !in b
    ensures BufferKey(a, x) == BufferKey(b, y) <==> a == b && x == y
  {
    assert BufferKey(a, x)[7..] == a + [':'] + x && BufferKey(b, y)[7..] == b + [':'] + y;
    FirstSeparatorSplits(a, ':', x, b, y);
  }

  predicate HasSender(c: Context) {
    c.remoteJid.Some? && c.remoteJid.value != ""
  }

  function KeyOf(c: Context): string
    requires HasSender(c)
  {
    BufferKey(c.instanceId, c.remoteJid.value)
  }

  function TextOf(c: Context): string {
    var text := ExtractText(c.message);
    if text.Some? then text.value else ""
  }

  predicate HasText(c: Context) {
    c.isText && TextOf(c) != ""
  }

  function Executed(store: Store, c: Context, at: Clock): (Store, Verdict) {
    if !HasSender(c) || (c.isText && TextOf(c) == "") then (store, PassOn)
    else
      var key := KeyOf(c);
      var s := Purged(store, key, at.load);
      if !c.isText then (s - {key}, PassOn)
      else
        var messages := Loaded(store, key, at.load) + [Item(TextOf(c), at.push)];
        if ShouldFlush(messages, at.check) then (s - {key}, Flush(Join(messages), |messages|))
        else
          (s[key := Entry(BufferState(messages, at.push), at.save + 1000 * BUFFER_TTL_SECONDS)], Hold)
  }

  /** What concerns no buffered text goes on as it is; a text goes on with its group or is held. */
  lemma PassesOnIff(store: Store, c: Context, at: Clock)
    ensures Executed(store, c, at).1 == PassOn <==> !(HasSender(c) && HasText(c))
    ensures !HasSender(c) ==> Executed(store, c, at).0 == store
  {
  }

  predicate NonEmptyBuffers(store: Store) {
    forall key <- store :: store[key].state.messages != []
  }

  class MessageBufferStage {
    var redis: Store

    constructor ()
      ensures redis == map[]
    {
      redis := map[];
    }

    method LoadBuffer(key: string, now: int) returns (state: BufferState)
      modifies this
      ensures redis == Purged(old(redis), key, now)
      ensures state.messages == Loaded(old(redis), key, now)
    {
      redis := Purged(redis, key, now);
      state := if key in redis then redis[key].state else BufferState([], now);
    }

    method SaveBuffer(key: string, state: BufferState, now: int)
      modifies this
      ensures redis == old(redis)[key := Entry(state, now + 1000 * BUFFER_TTL_SECONDS)]
    {
      redis := redis[key := Entry(state, now + 1000 * BUFFER_TTL_SECONDS)];
    }

    method ClearBuffer(key: string)
      modifies this
      ensures redis == old(redis) - {key}
    {
      redis := redis - {key};
    }

    method Execute(context: Context, at: Clock) returns (verdict: Verdict)
      requires NonEmptyBuffers(redis)
      modifies this
      ensures (redis, verdict) == Executed(old(redis), context, at)
      ensures NonEmptyBuffers(redis)
    {
      if !HasSender(context) {
        return PassOn;
      }
      var key := BufferKey(context.instanceId, context.remoteJid.value);
      if !context.isText {
        var pending := LoadBuffer(key, at.load);
        if |pending.messages| > 0 {
          ClearBuffer(key);
        }
        assert redis == Purged(old(redis), key, at.load) - {key};
        return PassOn;
      }
      var text := ExtractText(context.message);
      if text.None? || text.value == "" {
        return PassOn;
      }
      var state := LoadBuffer(key, at.load);
      state := BufferState(state.messages + [Item(text.value, at.push)], at.push);
      if ShouldFlush(state.messages, at.check) {
        var combined := Join(state.messages);
        ClearBuffer(key);
        return Flush(combined, |state.messages|);
      }
      SaveBuffer(key, state, at.save);
      return Hold;
    }
  }

  // ---------------------------------------------------------------- runs of the stage

  datatype Event = Event(context: Context, at: Clock)

  function Run(events: seq<Event>): Store {
    if events == [] then map[]
    else
      var e := events[|events| - 1];
      Executed(Run(events[..|events| - 1]), e.context, e.at).0
  }

  predicate Touches(e: Event, key: string) {
    HasSender(e.context) && KeyOf(e.context) == key && (e.context.isText ==> TextOf(e.context) != "")
  }

  /** What the stage sent on for `key`, flush by flush. */
  function Flushes(events: seq<Event>, key: string): seq<(string, nat)> {
    if events == [] then []
    else
      var init, e := events[..|events| - 1], events[|events| - 1];
      match Executed(Run(init), e.context, e.at).1
      case Flush(text, count) =>
        if Touches(e, key) then Flushes(init, key) + [(text, count)] else Flushes(init, key)
      case _ => Flushes(init, key)
  }

  // ---------------------------------------------------------------- the pure segmenter

  /** What reaches one buffer: a text, or a message of another type. */
  datatype Arrival = Text(text: string, at: Clock) | Other(at: Clock)

  datatype Piece = Piece(text: string, push: int, check: int)

  datatype Fate = Flushed | LostToOther | LostToExpiry

  datatype Group = Group(pieces: seq<Piece>, fate: Fate)

  datatype Segments = Segments(closed: seq<Group>, pending: seq<Piece>, expireAt: int)

  function Items(pieces: seq<Piece>): seq<Item> {
    seq(|pieces|, i requires 0 <= i < |pieces| => Item(pieces[i].text, pieces[i].push))
  }

  predicate Complete(pieces: seq<Piece>)
    requires pieces != []
  {
    ShouldFlush(Items(pieces), pieces[|pieces| - 1].check)
  }

  function Closed(s: Segments, fate: Fate): Segments {
    if s.pending == [] then s
    else s.(closed := s.closed + [Group(s.pending, fate)], pending := [])
  }

  /** What is still pending when the buffer is read at `load`. */
  function Live(s: Segments, load: int): Segments {
    if load >= s.expireAt then Closed(s, LostToExpiry) else s
  }

  function Grown(s: Segments, p: Piece, save: int): Segments {
    s.(pending := s.pending + [p], expireAt := save + 1000 * BUFFER_TTL_SECONDS)
  }

  function Accepted(live: Segments, a: Arrival): Segments {
    match a
    case Other(_) => Closed(live, LostToOther)
    case Text(text, at) =>
      var grown := Grown(live, Piece(text, at.push, at.check), at.save);
      if Complete(grown.pending) then Closed(grown, Flushed) else grown
  }

  function Segmented(s: Segments, a: Arrival): Segments {
    Accepted(Live(s, a.at.load), a)
  }

  function Segment(arrivals: seq<Arrival>): Segments {
    if arrivals == [] then Segments([], [], 0)
    else Segmented(Segment(arrivals[..|arrivals| - 1]), arrivals[|arrivals| - 1])
  }

  function ArrivalOf(e: Event): Arrival {
    if e.context.isText then Text(TextOf(e.context), e.at) else Other(e.at)
  }

  function ArrivalsAt(events: seq<Event>, key: string): seq<Arrival> {
    if events == [] then []
    else
      var init, e := events[..|events| - 1], events[|events| - 1];
      ArrivalsAt(init, key) + if Touches(e, key) then [ArrivalOf(e)] else []
  }

  /** The flushed groups as the stage emits them: joined text and size. */
  function Emitted(groups: seq<Group>): seq<(string, nat)> {
    if groups == [] then []
    else
      var g := groups[|groups| - 1];
      Emitted(groups[..|groups| - 1])
      + if g.fate == Flushed then [(Join(Items(g.pieces)), |g.pieces|)] else []
  }

  /** The store holds exactly the segmenter's pending buffer. */
  predicate Holds(store: Store, key: string, s: Segments) {
    && (key in store <==> s.pending != [])
    && (key in store ==> store[key].state.messages == Items(s.pending) && store[key].expireAt == s.expireAt)
  }

  lemma ItemsAppend(pieces: seq<Piece>, p: Piece)
    ensures Items(pieces + [p]) == Items(pieces) + [Item(p.text, p.push)]
  {
  }

  lemma ClosedEmits(s: Segments, fate: Fate)
    ensures Emitted(Closed(s, fate).closed) == Emitted(s.closed)
      + if s.pending != [] && fate == Flushed then [(Join(Items(s.pending)), |s.pending|)] else []
  {
  }

  lemma PurgeRefines(store: Store, key: string, s: Segments, load: int)
    requires Holds(store, key, s)
    ensures var live := Live(s, load);
      && Holds(Purged(store, key, load), key, live)
      && Loaded(store, key, load) == Items(live.pending)
      && Emitted(live.closed) == Emitted(s.closed)
  {
    ClosedEmits(s, LostToExpiry);
  }

  lemma TextRefines(store: Store, key: string, live: Segments, text: string, at: Clock)
    requires Holds(store, key, live)
    ensures var messages := Items(live.pending) + [Item(text, at.push)];
      var t := Accepted(live, Text(text, at));
      if ShouldFlush(messages, at.check) then
        && Holds(store - {key}, key, t)
        && Emitted(t.closed) == Emitted(live.closed) + [(Join(messages), |messages|)]
      else
        && t.closed == live.closed
        && Holds(store[key := Entry(BufferState(messages, at.push), at.save + 1000 * BUFFER_TTL_SECONDS)], key, t)
  {
    var p := Piece(text, at.push, at.check);
    ItemsAppend(live.pending, p);
    ClosedEmits(Grown(live, p, at.save), Flushed);
  }

  lemma StepRefines(store: Store, key: string, s: Segments, e: Event)
    requires Holds(store, key, s) && Touches(e, key)
    ensures var (after, verdict) := Executed(store, e.context, e.at);
      var t := Segmented(s, ArrivalOf(e));
      && Holds(after, key, t)
      && Emitted(t.closed) == Emitted(s.closed)
           + if verdict.Flush? then [(verdict.text, verdict.count)] else []
  {
    var live := Live(s, e.at.load);
    PurgeRefines(store, key, s, e.at.load);
    if e.context.isText {
      TextRefines(Purged(store, key, e.at.load), key, live, TextOf(e.context), e.at);
    } else {
      ClosedEmits(live, LostToOther);
    }
  }

  lemma OtherKeyUntouched(store: Store, key: string, e: Event)
    requires !Touches(e, key)
    ensures var after := Executed(store, e.context, e.at).0;
      (key in after <==> key in store) && (key in store ==> after[key] == store[key])
  {
  }

  /**
   * Refinement: whatever other senders do, the stored buffer of a key and the texts flushed for
   * it are those of the pure segmenter on the messages of that key alone.
   */
  lemma {:induction false} StageRefinesSegmenter(events: seq<Event>, key: string)
    ensures Holds(Run(events), key, Segment(ArrivalsAt(events, key)))
    ensures Flushes(events, key) == Emitted(Segment(ArrivalsAt(events, key)).closed)
  {
    if events != [] {
      var init, e := events[..|events| - 1], events[|events| - 1];
      StageRefinesSegmenter(init, key);
      var arrivals := ArrivalsAt(init, key);
      if Touches(e, key) {
        StepRefines(Run(init), key, Segment(arrivals), e);
        assert ArrivalsAt(events, key)[..|arrivals|] == arrivals;
      } else {
        OtherKeyUntouched(Run(init), key, e);
        assert ArrivalsAt(events, key) == arrivals;
      }
    }
  }

  // ---------------------------------------------------------------- what the segmenter does

  function Pieces(groups: seq<Group>): seq<Piece> {
    if groups == [] then [] else Pieces(groups[..|groups| - 1]) + groups[|groups| - 1].pieces
  }

  function Received(arrivals: seq<Arrival>): seq<Piece> {
    if arrivals == [] then []
    else
      Received(arrivals[..|arrivals| - 1])
      + match arrivals[|arrivals| - 1]
        case Text(text, at) => [Piece(text, at.push, at.check)]
        case Other(_) => []
  }

  /** No non-empty prefix is ready to flush. */
  predicate Open(pieces: seq<Piece>) {
    forall n :: 1 <= n <= |pieces| ==> !Complete(pieces[..n])
  }

  /** A group was flushed as soon as it could be, and a lost one never could be. */
  predicate Greedy(g: Group) {
    && g.pieces != []
    && if g.fate == Flushed then Complete(g.pieces) && Open(g.pieces[..|g.pieces| - 1]) else Open(g.pieces)
  }

  lemma ClosedGroups(s: Segments, fate: Fate)
    ensures Pieces(Closed(s, fate).closed) + Closed(s, fate).pending == Pieces(s.closed) + s.pending
    ensures (forall g <- s.closed :: Greedy(g)) && (s.pending != [] ==> Greedy(Group(s.pending, fate)))
      ==> forall g <- Closed(s, fate).closed :: Greedy(g)
  {
  }

  lemma OpenGrows(pieces: seq<Piece>, p: Piece)
    requires Open(pieces) && !Complete(pieces + [p])
    ensures Open(pieces + [p])
  {
    var more := pieces + [p];
    forall n | 1 <= n <= |more| ensures !Complete(more[..n]) {
      assert more[..n] == if n == |more| then more else pieces[..n];
    }
  }

  /** The texts of the groups and the pending buffer, with every group greedy. */
  predicate Conserved(s: Segments, received: seq<Piece>) {
    && Pieces(s.closed) + s.pending == received
    && (forall g <- s.closed :: Greedy(g))
    && Open(s.pending)
  }

  lemma LiveConserves(s: Segments, load: int, received: seq<Piece>)
    requires Conserved(s, received)
    ensures Conserved(Live(s, load), received)
  {
  }

  lemma TextConserves(live: Segments, text: string, at: Clock, received: seq<Piece>)
    requires Conserved(live, received)
    ensures Conserved(Accepted(live, Text(text, at)), received + [Piece(text, at.push, at.check)])
  {
    var p := Piece(text, at.push, at.check);
    var grown := Grown(live, p, at.save);
    assert Pieces(grown.closed) + grown.pending == received + [p];
    if Complete(grown.pending) {
      assert grown.pending[..|grown.pending| - 1] == live.pending;
      ClosedGroups(grown, Flushed);
    } else {
      OpenGrows(live.pending, p);
    }
  }

  /**
   * Conservation and greed: the texts received are, in order, those of the closed groups -
   * flushed, lost to a message of another type, lost to expiry - and then those still pending;
   * every group was flushed at the first moment it was ready.
   */
  lemma {:induction false} SegmentConserves(arrivals: seq<Arrival>)
    ensures Conserved(Segment(arrivals), Received(arrivals))
  {
    if arrivals != [] {
      var init, a := arrivals[..|arrivals| - 1], arrivals[|arrivals| - 1];
      SegmentConserves(init);
      LiveConserves(Segment(init), a.at.load, Received(init));
      var live := Live(Segment(init), a.at.load);
      if a.Text? {
        TextConserves(live, a.text, a.at, Received(init));
      } else {
        ClosedGroups(live, LostToOther);
        assert Received(arrivals) == Received(init);
      }
    }
  }

  // ---------------------------------------------------------------- what is lost

  /** An arrival does not drop what it finds: nothing is pending, or it is a text in time. */
  predicate Keeps(s: Segments, a: Arrival) {
    s.pending == [] || (a.Text? && a.at.load < s.expireAt)
  }

  /** The group that an arrival drops. */
  function DroppedGroup(s: Segments, a: Arrival): Group {
    Group(s.pending, if a.at.load >= s.expireAt then LostToExpiry else LostToOther)
  }

  predicate KeepsAt(arrivals: seq<Arrival>, i: nat)
    requires i < |arrivals|
  {
    Keeps(Segment(arrivals[..i]), arrivals[i])
  }

  /** The groups dropped by the arrivals, in order. */
  function Losses(arrivals: seq<Arrival>): seq<Group> {
    if arrivals == [] then []
    else
      var s, a := Segment(arrivals[..|arrivals| - 1]), arrivals[|arrivals| - 1];
      Losses(arrivals[..|arrivals| - 1]) + if Keeps(s, a) then [] else [DroppedGroup(s, a)]
  }

  function Lost(groups: seq<Group>): seq<Group> {
    if groups == [] then []
    else
      var g := groups[|groups| - 1];
      Lost(groups[..|groups| - 1]) + if g.fate == Flushed then [] else [g]
  }

  lemma ClosedLoses(s: Segments, fate: Fate)
    ensures Lost(Closed(s, fate).closed)
         == Lost(s.closed) + if s.pending != [] && fate != Flushed then [Group(s.pending, fate)] else []
  {
  }

  lemma LiveLoses(s: Segments, load: int)
    ensures var live := Live(s, load);
      if s.pending != [] && load >= s.expireAt
      then live.pending == [] && Lost(live.closed) == Lost(s.closed) + [Group(s.pending, LostToExpiry)]
      else live == s
  {
    ClosedLoses(s, LostToExpiry);
  }

  lemma AcceptedLoses(live: Segments, a: Arrival)
    ensures Lost(Accepted(live, a).closed)
         == Lost(live.closed) + if a.Other? && live.pending != [] then [Group(live.pending, LostToOther)] else []
  {
    match a {
      case Other(_) => ClosedLoses(live, LostToOther);
      case Text(text, at) => ClosedLoses(Grown(live, Piece(text, at.push, at.check), at.save), Flushed);
    }
  }

  lemma StepLoses(s: Segments, a: Arrival)
    ensures Lost(Segmented(s, a).closed)
         == Lost(s.closed) + if Keeps(s, a) then [] else [DroppedGroup(s, a)]
  {
    var live := Live(s, a.at.load);
    LiveLoses(s, a.at.load);
    AcceptedLoses(live, a);
    if live == s {
      assert Lost(s.closed) + [] == Lost(s.closed);
    } else {
      assert Lost(live.closed) + [] == Lost(s.closed) + [DroppedGroup(s, a)];
    }
  }

  /**
   * When and to what text is lost: each lost group was pending when an arrival found it expired
   * or, in time, was not a text, and every such arrival loses what was pending.
   */
  lemma {:induction false} LossesExact(arrivals: seq<Arrival>)
    ensures Lost(Segment(arrivals).closed) == Losses(arrivals)
  {
    if arrivals != [] {
      var init := arrivals[..|arrivals| - 1];
      LossesExact(init);
      StepLoses(Segment(init), arrivals[|arrivals| - 1]);
    }
  }

  lemma {:induction false} LostNoneIff(groups: seq<Group>)
    ensures Lost(groups) == [] <==> forall g <- groups :: g.fate == Flushed
  {
    if groups != [] {
      var init, g := groups[..|groups| - 1], groups[|groups| - 1];
      LostNoneIff(init);
      assert groups == init + [g];
    }
  }

  lemma KeepsAtPrefix(arrivals: seq<Arrival>, n: nat, i: nat)
    requires i < n <= |arrivals|
    ensures KeepsAt(arrivals[..n], i) == KeepsAt(arrivals, i)
  {
    assert arrivals[..n][..i] == arrivals[..i];
  }

  lemma LossesStep(arrivals: seq<Arrival>, n: nat)
    requires |arrivals| == n + 1
    ensures Losses(arrivals) == [] <==> Losses(arrivals[..n]) == [] && KeepsAt(arrivals, n)
  {
  }

  lemma {:induction false} LossesNoneIff(arrivals: seq<Arrival>)
    ensures Losses(arrivals) == [] <==> forall i :: 0 <= i < |arrivals| ==> KeepsAt(arrivals, i)
  {
    if arrivals != [] {
      var n := |arrivals| - 1;
      LossesNoneIff(arrivals[..n]);
      LossesStep(arrivals, n);
      forall i | 0 <= i < n ensures KeepsAt(arrivals[..n], i) == KeepsAt(arrivals, i) {
        KeepsAtPrefix(arrivals, n, i);
      }
    }
  }

  /** Every closed group was flushed exactly when no arrival finds a pending buffer and is late or not a text. */
  lemma AllFlushedIff(arrivals: seq<Arrival>)
    ensures (forall g <- Segment(arrivals).closed :: g.fate == Flushed)
       <==> forall i :: 0 <= i < |arrivals| ==> KeepsAt(arrivals, i)
  {
    LossesExact(arrivals);
    LostNoneIff(Segment(arrivals).closed);
    LossesNoneIff(arrivals);
  }

  // ---------------------------------------------------------------- what the flushes say

  /** The lines of all flushes, in order. */
  function Lines(flushes: seq<(string, nat)>): seq<string> {
    if flushes == [] then []
    else Lines(flushes[..|flushes| - 1]) + Split(flushes[|flushes| - 1].0, '\n')
  }

  function PieceTexts(pieces: seq<Piece>): seq<string> {
    seq(|pieces|, i requires 0 <= i < |pieces| => pieces[i].text)
  }

  /** The texts of the flushed groups, in order. */
  function FlushedTexts(groups: seq<Group>): seq<string> {
    if groups == [] then []
    else
      var g := groups[|groups| - 1];
      FlushedTexts(groups[..|groups| - 1]) + if g.fate == Flushed then PieceTexts(g.pieces) else []
  }

  predicate OneLineGroups(groups: seq<Group>) {
    forall g <- groups :: g.pieces != [] && OneLiners(PieceTexts(g.pieces))
  }

  lemma {:induction false} EmittedLines(groups: seq<Group>)
    requires OneLineGroups(groups)
    ensures Lines(Emitted(groups)) == FlushedTexts(groups)
  {
    if groups != [] {
      var init, g := groups[..|groups| - 1], groups[|groups| - 1];
      EmittedLines(init);
      if g.fate == Flushed {
        var f := (Join(Items(g.pieces)), |g.pieces|);
        assert Texts(Items(g.pieces)) == PieceTexts(g.pieces);
        JoinSplits(Items(g.pieces));
        assert (Emitted(init) + [f])[..|Emitted(init)|] == Emitted(init);
      } else {
        assert Emitted(init) + [] == Emitted(init);
      }
    }
  }

  lemma {:induction false} PiecesOfGroup(groups: seq<Group>, g: Group)
    requires g in groups
    ensures forall p <- g.pieces :: p in Pieces(groups)
  {
    if g != groups[|groups| - 1] {
      PiecesOfGroup(groups[..|groups| - 1], g);
    }
  }

  lemma {:induction false} ReceivedOneLiners(events: seq<Event>, key: string)
    requires forall e <- events :: '\n' !in TextOf(e.context)
    ensures forall p <- Received(ArrivalsAt(events, key)) :: '\n' !in p.text
  {
    if events != [] {
      var init, e := events[..|events| - 1], events[|events| - 1];
      assert e in events;
      assert forall d <- init :: d in events;
      ReceivedOneLiners(init, key);
      var arrivals := ArrivalsAt(init, key);
      if Touches(e, key) {
        assert ArrivalsAt(events, key)[..|arrivals|] == arrivals;
      } else {
        assert ArrivalsAt(events, key) == arrivals;
      }
    }
  }

  /**
   * What the flushes of a sender say, over every run with texts of one line: read line by line
   * they are the texts of its flushed groups, each text once and in the order received.
   */
  lemma FlushesCarryTexts(events: seq<Event>, key: string)
    requires forall e <- events :: '\n' !in TextOf(e.context)
    ensures Lines(Flushes(events, key)) == FlushedTexts(Segment(ArrivalsAt(events, key)).closed)
  {
    var arrivals := ArrivalsAt(events, key);
    var groups := Segment(arrivals).closed;
    StageRefinesSegmenter(events, key);
    SegmentConserves(arrivals);
    ReceivedOneLiners(events, key);
    forall g <- groups ensures g.pieces != [] && OneLiners(PieceTexts(g.pieces)) {
      PiecesOfGroup(groups, g);
      forall t <- PieceTexts(g.pieces) ensures '\n' !in t {
        var i :| 0 <= i < |g.pieces| && PieceTexts(g.pieces)[i] == t;
        assert g.pieces[i] in Pieces(groups) + Segment(arrivals).pending;
      }
    }
    EmittedLines(groups);
  }

  // ---------------------------------------------------------------- what is lost, counted at the stage

  function TextCount(events: seq<Event>, key: string): nat {
    if events == [] then 0
    else
      var e := events[|events| - 1];
      TextCount(events[..|events| - 1], key) + if Touches(e, key) && e.context.isText then 1 else 0
  }

  /** How many texts the flushes report. */
  function Reported(flushes: seq<(string, nat)>): nat {
    if flushes == [] then 0 else Reported(flushes[..|flushes| - 1]) + flushes[|flushes| - 1].1
  }

  function StoredCount(store: Store, key: string): nat {
    if key in store then |store[key].state.messages| else 0
  }

  /** Of these, the texts that Redis still has at `now`. */
  function LiveCount(store: Store, key: string, now: int): nat {
    if key in store && now < store[key].expireAt then StoredCount(store, key) else 0
  }

  /** The texts of a buffer that has expired with nobody reading it: no timer flushes it. */
  function ExpiredCount(store: Store, key: string, now: int): nat {
    if key in store && now >= store[key].expireAt then StoredCount(store, key) else 0
  }

  /** The event finds a buffer of `key` and does not take it up. */
  predicate Drops(store: Store, e: Event, key: string) {
    Touches(e, key) && key in store && !(e.context.isText && e.at.load < store[key].expireAt)
  }

  function DroppedCount(events: seq<Event>, key: string): nat {
    if events == [] then 0
    else
      var init, e := events[..|events| - 1], events[|events| - 1];
      DroppedCount(init, key) + if Drops(Run(init), e, key) then StoredCount(Run(init), key) else 0
  }

  lemma ReportedAppend(flushes: seq<(string, nat)>, f: (string, nat))
    ensures Reported(flushes + [f]) == Reported(flushes) + f.1
  {
  }

  lemma StepAccounted(store: Store, e: Event, key: string)
    ensures var (after, verdict) := Executed(store, e.context, e.at);
      StoredCount(store, key) + (if Touches(e, key) && e.context.isText then 1 else 0)
        == StoredCount(after, key) + (if Touches(e, key) && verdict.Flush? then verdict.count else 0)
         + (if Drops(store, e, key) then StoredCount(store, key) else 0)
  {
  }

  lemma {:induction false} TextsStored(events: seq<Event>, key: string)
    ensures TextCount(events, key)
         == Reported(Flushes(events, key)) + StoredCount(Run(events), key) + DroppedCount(events, key)
  {
    if events != [] {
      var init, e := events[..|events| - 1], events[|events| - 1];
      TextsStored(init, key);
      StepAccounted(Run(init), e, key);
      var verdict := Executed(Run(init), e.context, e.at).1;
      if verdict.Flush? && Touches(e, key) {
        ReportedAppend(Flushes(init, key), (verdict.text, verdict.count));
      }
    }
  }

  /** At any instant every text has been reported by a flush, can still be read, has expired unread or was dropped. */
  lemma {:induction false} TextsAccounted(events: seq<Event>, key: string, now: int)
    ensures TextCount(events, key)
         == Reported(Flushes(events, key)) + LiveCount(Run(events), key, now)
          + ExpiredCount(Run(events), key, now) + DroppedCount(events, key)
  {
    TextsStored(events, key);
  }

  predicate DropsAt(events: seq<Event>, i: nat, key: string)
    requires i < |events|
  {
    Drops(Run(events[..i]), events[i], key)
  }

  lemma StoredIsNonEmpty(events: seq<Event>, key: string)
    ensures StoredCount(Run(events), key) == 0 <==> key !in Run(events)
  {
    StageRefinesSegmenter(events, key);
  }

  lemma {:induction false} DroppedNoneIff(events: seq<Event>, key: string)
    ensures DroppedCount(events, key) == 0 <==> forall i :: 0 <= i < |events| ==> !DropsAt(events, i, key)
  {
    if events != [] {
      var n := |events| - 1;
      DroppedNoneIff(events[..n], key);
      StoredIsNonEmpty(events[..n], key);
      assert forall i :: 0 <= i < n ==> events[..n][..i] == events[..i];
      assert forall i :: 0 <= i < n ==> DropsAt(events[..n], i, key) == DropsAt(events, i, key);
      assert DroppedCount(events, key) == 0 <==> DroppedCount(events[..n], key) == 0 && !DropsAt(events, n, key);
    }
  }

  /**
   * The promise that pending texts are processed, as it shows from outside at an instant: every
   * text has been reported by a flush or can still be read exactly when no message of another
   * type and no late text found a stored buffer, and no stored buffer has expired in silence.
   */
  lemma NoTextLostIff(events: seq<Event>, key: string, now: int)
    ensures Reported(Flushes(events, key)) + LiveCount(Run(events), key, now) == TextCount(events, key) <==>
      && (forall i :: 0 <= i < |events| ==> !DropsAt(events, i, key))
      && (key in Run(events) ==> now < Run(events)[key].expireAt)
  {
    TextsAccounted(events, key, now);
    DroppedNoneIff(events, key);
    StoredIsNonEmpty(events, key);
  }

  function HeldText(instanceId: string, sender: string): Context {
    Context(instanceId, Some(sender), true, Some(RawMessage(Some("a"), None)))
  }

  lemma TextIsHeld(instanceId: string, sender: string, at: Clock)
    requires sender != ""
    ensures var key, e := BufferKey(instanceId, sender), Event(HeldText(instanceId, sender), at);
      && Run([e]) == map[key := Entry(BufferState([Item("a", at.push)], at.push), at.save + 1000 * BUFFER_TTL_SECONDS)]
      && TextCount([e], key) == 1 && Flushes([e], key) == []
  {
    var key, e := BufferKey(instanceId, sender), Event(HeldText(instanceId, sender), at);
    assert [e][..0] == [];
    assert Trim("a") == "a";
    assert TextOf(e.context) == "a" && KeyOf(e.context) == key;
    assert [] + [Item("a", at.push)] == [Item("a", at.push)];
    assert !ShouldFlush([Item("a", at.push)], at.check);
    assert Run([]) == map[] && Run([e]) == Executed(map[], e.context, at).0;
  }

  /** A text held back and then a message of another type: the text is gone, and was not sent on. */
  lemma OtherTypeDropsText(instanceId: string, sender: string, at: Clock, later: Clock)
    requires sender != ""
    ensures var image := Context(instanceId, Some(sender), false, None);
      var events := [Event(HeldText(instanceId, sender), at), Event(image, later)];
      var key := BufferKey(instanceId, sender);
      && TextCount(events, key) == 1 && Flushes(events, key) == [] && key !in Run(events)
      && DroppedCount(events, key) == 1
  {
    var image := Context(instanceId, Some(sender), false, None);
    var e, f := Event(HeldText(instanceId, sender), at), Event(image, later);
    var events, key := [e, f], BufferKey(instanceId, sender);
    TextIsHeld(instanceId, sender, at);
    assert events[..1] == [e];
    assert Run(events) == Executed(Run([e]), image, later).0;
    assert KeyOf(image) == key;
    TextsStored(events, key);
  }

  /** A text held back and then silence: it is gone after 30 seconds, whoever else writes meanwhile. */
  lemma SilenceDropsText(instanceId: string, sender: string, at: Clock, other: Event, now: int)
    requires sender != "" && now >= at.save + 30_000
    requires !Touches(other, BufferKey(instanceId, sender))
    ensures var events, key := [Event(HeldText(instanceId, sender), at), other], BufferKey(instanceId, sender);
      && TextCount(events, key) == 1 && Flushes(events, key) == []
      && LiveCount(Run(events), key, now) == 0 && key !in Purged(Run(events), key, now)
      && forall i :: 0 <= i < |events| ==> !DropsAt(events, i, key)
  {
    var e, key := Event(HeldText(instanceId, sender), at), BufferKey(instanceId, sender);
    var events := [e, other];
    TextIsHeld(instanceId, sender, at);
    assert events[..1] == [e] && events[..0] == [];
    assert Run(events) == Executed(Run([e]), other.context, other.at).0;
    OtherKeyUntouched(Run([e]), key, other);
    assert !DropsAt(events, 0, key) && !DropsAt(events, 1, key);
  }

  // ---------------------------------------------------------------- what is kept

  lemma OpenAt(pieces: seq<Piece>, n: nat)
    requires Open(pieces) && n < |pieces|
    ensures n + 1 < MAX_BUFFERED_MESSAGES && !EndsSentence(pieces[n].text)
    ensures n > 0 ==> pieces[n].check - pieces[n - 1].push < FLUSH_TIMEOUT_MS
  {
    var prefix := pieces[..n + 1];
    assert !Complete(prefix);
    assert Items(prefix)[n] == Item(pieces[n].text, pieces[n].push);
    if n > 0 {
      assert Items(prefix)[n - 1] == Item(pieces[n - 1].text, pieces[n - 1].push);
    }
  }

  lemma NotComplete(pieces: seq<Piece>, n: nat)
    requires 1 <= n <= |pieces| < 10 && !EndsSentence(pieces[n - 1].text)
    requires n > 1 ==> pieces[n - 1].check - pieces[n - 2].push < 3000
    ensures !Complete(pieces[..n])
  {
    var prefix := pieces[..n];
    assert Items(prefix)[n - 1] == Item(pieces[n - 1].text, pieces[n - 1].push);
    if n > 1 {
      assert Items(prefix)[n - 2] == Item(pieces[n - 2].text, pieces[n - 2].push);
    }
  }

  /** Texts are held exactly while they are at most 9, none ends a sentence and adjacent gaps are under 3 s. */
  lemma OpenShape(pieces: seq<Piece>)
    ensures Open(pieces) <==>
      && |pieces| <= 9
      && (forall p <- pieces :: !EndsSentence(p.text))
      && (forall i, j :: 0 <= i < |pieces| && 0 <= j < |pieces| && j == i + 1 ==>
            pieces[j].check - pieces[i].push < 3000)
  {
    if Open(pieces) {
      if pieces != [] {
        OpenAt(pieces, |pieces| - 1);
      }
      forall p <- pieces ensures !EndsSentence(p.text) {
        var n :| 0 <= n < |pieces| && pieces[n] == p;
        OpenAt(pieces, n);
      }
      forall i, j | 0 <= i < |pieces| && 0 <= j < |pieces| && j == i + 1
        ensures pieces[j].check - pieces[i].push < 3000
      {
        OpenAt(pieces, j);
      }
    } else {
      var n :| 1 <= n <= |pieces| && Complete(pieces[..n]);
      assert pieces[n - 1] in pieces;
      if |pieces| <= 9 && !EndsSentence(pieces[n - 1].text) {
        if n > 1 ==> pieces[n - 1].check - pieces[n - 2].push < 3000 {
          NotComplete(pieces, n);
        }
      }
    }
  }

  /** The same of every buffer the stage ever stores, for clocks that do not run backwards. */
  lemma {:induction false} StoredBufferShape(events: seq<Event>, key: string)
    requires forall e <- events :: Ticks(e.at)
    requires key in Run(events)
    ensures var messages := Run(events)[key].state.messages;
      && 1 <= |messages| <= 9
      && (forall m <- messages :: !EndsSentence(m.text))
      && (forall i, j :: 0 <= i < |messages| && 0 <= j < |messages| && j == i + 1 ==>
            messages[j].timestamp - messages[i].timestamp < FLUSH_TIMEOUT_MS)
  {
    var arrivals := ArrivalsAt(events, key);
    var pending := Segment(arrivals).pending;
    StageRefinesSegmenter(events, key);
    SegmentConserves(arrivals);
    ReceivedTicks(events, key);
    forall p <- pending ensures p.push <= p.check {
      assert p in Pieces(Segment(arrivals).closed) + pending;
    }
    OpenShape(pending);
    OpenItemsShape(pending);
  }

  lemma OpenItemsShape(pieces: seq<Piece>)
    requires Open(pieces) && forall p <- pieces :: p.push <= p.check
    ensures var messages := Items(pieces);
      && (forall m <- messages :: !EndsSentence(m.text))
      && (forall i, j :: 0 <= i < |messages| && 0 <= j < |messages| && j == i + 1 ==>
            messages[j].timestamp - messages[i].timestamp < FLUSH_TIMEOUT_MS)
  {
    OpenShape(pieces);
    forall m <- Items(pieces) ensures !EndsSentence(m.text) {
      var n :| 0 <= n < |pieces| && Items(pieces)[n] == m;
      assert pieces[n] in pieces;
    }
    forall i, j | 0 <= i < |pieces| && 0 <= j < |pieces| && j == i + 1
      ensures Items(pieces)[j].timestamp - Items(pieces)[i].timestamp < FLUSH_TIMEOUT_MS
    {
      assert pieces[j] in pieces;
      assert pieces[j].check - pieces[i].push < FLUSH_TIMEOUT_MS;
    }
  }

  lemma {:induction false} ReceivedTicks(events: seq<Event>, key: string)
    requires forall e <- events :: Ticks(e.at)
    ensures forall p <- Received(ArrivalsAt(events, key)) :: p.push <= p.check
  {
    if events != [] {
      var init, e := events[..|events| - 1], events[|events| - 1];
      assert e in events;
      assert forall d <- init :: d in events;
      ReceivedTicks(init, key);
      var arrivals := ArrivalsAt(init, key);
      if Touches(e, key) {
        assert ArrivalsAt(events, key)[..|arrivals|] == arrivals;
      } else {
        assert ArrivalsAt(events, key) == arrivals;
      }
    }
  }

  // ---------------------------------------------------------------- an independent reading

  /** The size of the shortest non-empty prefix that is ready to flush, from `n` on; 0 if none is. */
  function FirstComplete(pieces: seq<Piece>, n: nat): nat
    requires n >= 1
    decreases |pieces| + 1 - n
  {
    if n > |pieces| then 0 else if Complete(pieces[..n]) then n else FirstComplete(pieces, n + 1)
  }

  lemma {:induction false} FirstCompleteLeast(pieces: seq<Piece>, n: nat, k: nat)
    requires 1 <= n <= k <= |pieces|
    requires forall m :: n <= m < k ==> !Complete(pieces[..m])
    requires Complete(pieces[..k])
    ensures FirstComplete(pieces, n) == k
    decreases k - n
  {
    if n < k {
      FirstCompleteLeast(pieces, n + 1, k);
    }
  }

  lemma {:induction false} FirstCompleteNone(pieces: seq<Piece>, n: nat)
    requires n >= 1 && forall m :: n <= m <= |pieces| ==> !Complete(pieces[..m])
    ensures FirstComplete(pieces, n) == 0
    decreases |pieces| + 1 - n
  {
    if n <= |pieces| {
      FirstCompleteNone(pieces, n + 1);
    }
  }

  lemma FirstCompleteBound(pieces: seq<Piece>, n: nat)
    requires n >= 1
    ensures FirstComplete(pieces, n) <= |pieces|
    decreases |pieces| + 1 - n
  {
    if n <= |pieces| && !Complete(pieces[..n]) {
      FirstCompleteBound(pieces, n + 1);
    }
  }

  /** Cut off shortest ready prefixes from the front; what is left is pending. */
  function Cut(pieces: seq<Piece>): (seq<seq<Piece>>, seq<Piece>)
    decreases |pieces|
  {
    FirstCompleteBound(pieces, 1);
    var k := FirstComplete(pieces, 1);
    if k == 0 then ([], pieces)
    else
      var (groups, pending) := Cut(pieces[k..]);
      ([pieces[..k]] + groups, pending)
  }

  /** Only texts arrive, each before the buffer it finds has expired. */
  predicate Prompt(arrivals: seq<Arrival>) {
    && (forall a <- arrivals :: a.Text?)
    && (forall i, j :: 0 <= i < |arrivals| && 0 <= j < |arrivals| && j == i + 1 ==>
          arrivals[j].at.load < arrivals[i].at.save + 1000 * BUFFER_TTL_SECONDS)
  }

  lemma {:induction false} PromptFlushesAll(arrivals: seq<Arrival>)
    requires Prompt(arrivals)
    ensures forall g <- Segment(arrivals).closed :: g.fate == Flushed
    ensures Segment(arrivals).pending != [] ==>
      arrivals != [] && Segment(arrivals).expireAt
        == arrivals[|arrivals| - 1].at.save + 1000 * BUFFER_TTL_SECONDS
  {
    if arrivals != [] {
      var init, a := arrivals[..|arrivals| - 1], arrivals[|arrivals| - 1];
      assert forall b <- init :: b in arrivals;
      assert a in arrivals;
      PromptFlushesAll(init);
    }
  }

  function Parts(groups: seq<Group>): seq<seq<Piece>> {
    if groups == [] then [] else [groups[0].pieces] + Parts(groups[1..])
  }

  lemma CutFirst(g: Group, more: seq<Piece>)
    requires Greedy(g) && g.fate == Flushed
    ensures var pieces := g.pieces + more;
      Cut(pieces) == ([g.pieces] + Cut(more).0, Cut(more).1)
  {
    var pieces, k := g.pieces + more, |g.pieces|;
    assert pieces[..k] == g.pieces && pieces[k..] == more;
    forall m | 1 <= m < k ensures !Complete(pieces[..m]) {
      assert pieces[..m] == g.pieces[..k - 1][..m];
    }
    FirstCompleteLeast(pieces, 1, k);
  }

  lemma {:induction false} CutUnique(groups: seq<Group>, pending: seq<Piece>, pieces: seq<Piece>)
    requires pieces == PiecesFront(groups) + pending && Open(pending)
    requires forall g <- groups :: Greedy(g) && g.fate == Flushed
    ensures Cut(pieces) == (Parts(groups), pending)
    decreases |groups|
  {
    if groups == [] {
      assert pieces == pending;
      FirstCompleteNone(pieces, 1);
    } else {
      var g, rest := groups[0], groups[1..];
      assert g in groups;
      assert forall h <- rest :: h in groups;
      var more := PiecesFront(rest) + pending;
      assert pieces == g.pieces + more;
      CutFirst(g, more);
      CutUnique(rest, pending, more);
    }
  }

  function PiecesFront(groups: seq<Group>): seq<Piece> {
    if groups == [] then [] else groups[0].pieces + PiecesFront(groups[1..])
  }

  lemma {:induction false} PiecesEitherWay(groups: seq<Group>)
    ensures Pieces(groups) == PiecesFront(groups)
  {
    if groups != [] {
      var init, last := groups[..|groups| - 1], groups[|groups| - 1];
      PiecesEitherWay(init);
      PiecesFrontAppend(init, last);
      assert groups == init + [last];
    }
  }

  lemma {:induction false} PiecesFrontAppend(groups: seq<Group>, g: Group)
    ensures PiecesFront(groups + [g]) == PiecesFront(groups) + g.pieces
  {
    if groups == [] {
      assert PiecesFront([g]) == g.pieces + PiecesFront([g][1..]);
    } else {
      PiecesFrontAppend(groups[1..], g);
      assert (groups + [g])[1..] == groups[1..] + [g];
    }
  }

  /**
   * With only prompt texts nothing is lost, and the segmenter's groups are those found by
   * cutting shortest ready prefixes from the whole list of texts.
   */
  lemma PromptSegmentsAreCuts(arrivals: seq<Arrival>)
    requires Prompt(arrivals)
    ensures var s := Segment(arrivals);
      && (forall g <- s.closed :: g.fate == Flushed)
      && Cut(Received(arrivals))
           == (Parts(s.closed), s.pending)
  {
    var s := Segment(arrivals);
    PromptFlushesAll(arrivals);
    SegmentConserves(arrivals);
    PiecesEitherWay(s.closed);
    CutUnique(s.closed, s.pending, Received(arrivals));
  }
}
