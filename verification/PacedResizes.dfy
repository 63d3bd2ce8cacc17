/**
 * Whole runs of one toplevel's `ConfigureAnswers` under its callers' rules:
 * every resize returned is sent at once with the next serial, a wait arms a
 * timer, the engine's numbers and the clock only rise, and acks never go back.
 */
module PacedResizes {
  import opened Basics
  import opened ConfigureAnswers

  /** One entry of the log of what was sent, at `at`; `changed` if it counted as a change of size. */
  datatype Sent = Sent(serial: Serial, resize: Resize, at: Instant, changed: bool)

  /**
   * What the object holds, and the run so far: the newest resize asked for,
   * every configure sent, the size changes among them, how many of those came
   * before the first no commit has answered, the timers armed, the last ack,
   * the resizes told again, and the last box answered.
   */
  datatype World = World(
    held: Held,
    now: Instant,
    acked: Option<Serial>,
    timers: set<Instant>,
    asked: Option<Resize>,
    log: seq<Sent>,
    changes: seq<SizeChange>,
    open: nat,
    told: seq<Resize>,
    answered: Option<nat>)

  const INITIAL := World(NOTHING, 0, None, {}, None, [], [], 0, [], None)

  /** `sentAt` and `serial` are when and as what a resize the call returns goes out. */
  datatype Event =
    | Layout(resize: Resize, now: Instant, sentAt: Instant, serial: Serial)
    | Commit(acked: Option<Serial>, sentAt: Instant, serial: Serial)
    | Draw(acked: Option<Serial>, drawn: Size, sentAt: Instant, serial: Serial)
    | Fire(timer: Instant, now: Instant, sentAt: Instant, serial: Serial)
    | Answer(acked: Option<Serial>)

  function SendNow(w: World, resize: Resize, at: Instant, serial: Serial): World {
    var (held, changed) := Sending(w.held, serial, resize, at);
    w.(held := held, now := at, log := w.log + [Sent(serial, resize, at, changed)],
       changes := if changed then w.changes + [SizeChange(serial, at)] else w.changes)
  }

  function SendAny(w: World, released: Option<Resize>, at: Instant, serial: Serial): World {
    if released.Some? then SendNow(w, released.value, at, serial) else w
  }

  function Next(w: World, event: Event): World {
    match event
    case Layout(resize, now, sentAt, serial) => LaidOut(GaveUp(w, now), resize, sentAt, serial)
    case Commit(acked, sentAt, serial) =>
      if acked.None? then w
      else Committed(w, acked.value, Filter(w.held.unanswered, After(acked.value)), sentAt, serial)
    case Draw(acked, drawn, sentAt, serial) =>
      var (held, again) := Drawing(w.held, acked, drawn);
      var told := if again.Some? then w.told + [again.value] else w.told;
      SendAny(w.(held := held, acked := acked, told := told), again, sentAt, serial)
    case Fire(timer, now, sentAt, serial) => Fired(GaveUp(w, now), timer, sentAt, serial)
    case Answer(acked) =>
      var (held, number) := Answering(w.held, acked);
      w.(held := held, acked := acked, answered := if number == LAST_SHOWN_BOX then w.answered else Some(number))
  }

  function GaveUp(w: World, now: Instant): World {
    w.(held := GivenUp(w.held, now), now := now)
  }

  function LaidOut(w: World, resize: Resize, sentAt: Instant, serial: Serial): World {
    var (held, resized) := Queueing(w.held, resize);
    var after := w.(held := held, asked := Some(resize));
    match resized
    case Send(out) => SendNow(after, out, sentAt, serial)
    case Waits(until) => after.(timers := w.timers + {until})
    case Coalesced => after
  }

  function Committed(w: World, acked: Serial, left: seq<SizeChange>, sentAt: Instant, serial: Serial): World {
    var (held, released) := Releasing(w.held, left);
    var open := if |left| < |w.held.unanswered| && |left| <= |w.changes| then |w.changes| - |left| else w.open;
    SendAny(w.(held := held, acked := Some(acked), open := open), released, sentAt, serial)
  }

  function Fired(w: World, timer: Instant, sentAt: Instant, serial: Serial): World {
    var (held, released) := ReleasingUnlessFull(w.held);
    SendAny(w.(held := held, timers := w.timers - {timer}), released, sentAt, serial)
  }

  predicate NotBefore(earlier: Option<Serial>, later: Option<Serial>) {
    earlier.Some? ==> later.Some? && earlier.value <= later.value
  }

  predicate FreshSerial(w: World, serial: Serial) {
    w.log == [] || w.log[|w.log| - 1].serial < serial
  }

  /** The callers' rules. */
  predicate Allowed(w: World, event: Event) {
    match event
    case Layout(resize, now, sentAt, serial) =>
      && resize.number != LAST_SHOWN_BOX
      && (w.asked.Some? ==> w.asked.value.number < resize.number)
      && w.now <= now <= sentAt && FreshSerial(w, serial)
    case Commit(acked, sentAt, serial) => NotBefore(w.acked, acked) && w.now <= sentAt && FreshSerial(w, serial)
    case Draw(acked, _, sentAt, serial) => NotBefore(w.acked, acked) && w.now <= sentAt && FreshSerial(w, serial)
    case Fire(timer, now, sentAt, serial) =>
      timer in w.timers && timer <= now && w.now <= now <= sentAt && FreshSerial(w, serial)
    case Answer(acked) => NotBefore(w.acked, acked)
  }

  ghost predicate AllowedRun(w: World, events: seq<Event>)
    decreases |events|
  {
    events == [] || (Allowed(w, events[0]) && AllowedRun(Next(w, events[0]), events[1..]))
  }

  function Run(w: World, events: seq<Event>): World
    decreases |events|
  {
    if events == [] then w else Run(Next(w, events[0]), events[1..])
  }

  // What every reachable world keeps.

  /** Serials and numbers rise, and one number is one resize. */
  ghost predicate Ordered(log: seq<Sent>) {
    && (forall i, j :: 0 <= i < j < |log| ==>
         && log[i].serial < log[j].serial
         && log[i].resize.number <= log[j].resize.number
         && (log[i].resize.number == log[j].resize.number ==> log[i].resize == log[j].resize))
    && forall i :: 0 <= i < |log| ==> log[i].resize.number != LAST_SHOWN_BOX
  }

  ghost predicate KnowsNewest(newest: Option<Configure>, size: Option<Size>, log: seq<Sent>) {
    if log == [] then newest.None? && size.None?
    else
      var last := log[|log| - 1];
      newest == Some(Configure(last.serial, last.resize)) && size == Some(last.resize.size)
  }

  ghost predicate ChangesOrdered(changes: seq<SizeChange>, now: Instant) {
    && (forall i, j :: 0 <= i < j < |changes| ==>
         changes[i].serial < changes[j].serial && changes[i].since <= changes[j].since)
    && forall i :: 0 <= i < |changes| ==> changes[i].since <= now
  }

  /**
   * The unanswered changes are the last ones sent, at most three. Those given
   * up on are `PATIENCE` old, and three changes on from one no commit has
   * answered is `PATIENCE` later.
   */
  ghost predicate Paced(unanswered: seq<SizeChange>, changes: seq<SizeChange>, open: nat, now: Instant) {
    && ChangesOrdered(changes, now)
    && |unanswered| <= UNANSWERED && open + |unanswered| <= |changes|
    && IsEnd(unanswered, changes)
    && (forall i :: open <= i < |changes| - |unanswered| ==> changes[i].since + PATIENCE <= now)
    && RateBound(changes, open)
  }

  ghost predicate RateBound(changes: seq<SizeChange>, open: nat) {
    forall i, j :: open <= i && j == i + UNANSWERED && j < |changes| ==>
      changes[i].since + PATIENCE <= changes[j].since
  }

  ghost predicate ChangesSent(changes: seq<SizeChange>, log: seq<Sent>) {
    forall i :: 0 <= i < |changes| ==> log != [] && changes[i].serial <= log[|log| - 1].serial
  }

  /** The newest resize asked for is the newest sent or the one waiting. */
  ghost predicate NewestKept(asked: Option<Resize>, waiting: Option<Resize>, log: seq<Sent>) {
    && (asked.None? ==> log == [] && waiting.None?)
    && (asked.Some? ==>
         && log != []
         && if waiting.Some? then waiting == asked && log[|log| - 1].resize.number < asked.value.number
            else log[|log| - 1].resize == asked.value)
  }

  /** A resize waits only behind three unanswered changes, with a timer armed for when the oldest is overdue. */
  ghost predicate WaitsForATimer(waiting: Option<Resize>, unanswered: seq<SizeChange>, timers: set<Instant>) {
    waiting.Some? ==> |unanswered| == UNANSWERED && unanswered[0].since + PATIENCE in timers
  }

  function Boxes(log: seq<Sent>): seq<SentBox> {
    seq(|log|, i requires 0 <= i < |log| => SentBox(log[i].serial, log[i].resize.number, log[i].resize.deviceSize))
  }

  /** Only boxes before one already acked are forgotten. */
  ghost predicate Queued(sent: seq<SentBox>, boxes: seq<SentBox>, acked: Option<Serial>) {
    && IsEnd(sent, boxes)
    && (|sent| < |boxes| ==> acked.Some? && sent != [] && sent[0].serial <= acked.value)
  }

  ghost predicate ToldOnce(told: seq<Resize>, toldAgain: Option<Resize>, log: seq<Sent>) {
    && (forall i, j :: 0 <= i < j < |told| ==> told[i].number < told[j].number)
    && toldAgain == (if told == [] then None else Some(told[|told| - 1]))
    && (told != [] ==>
         && log != []
         && (told[|told| - 1].number < log[|log| - 1].resize.number || told[|told| - 1] == log[|log| - 1].resize))
  }

  ghost predicate AnsweredSent(answered: Option<nat>, acked: Option<Serial>, log: seq<Sent>) {
    answered.Some? ==>
      acked.Some? && exists i :: 0 <= i < |log| && log[i].resize.number == answered.value
                                 && log[i].serial <= acked.value
  }

  ghost predicate Core(w: World) {
    && Ordered(w.log) && KnowsNewest(w.held.newest, w.held.size, w.log)
    && Paced(w.held.unanswered, w.changes, w.open, w.now) && ChangesSent(w.changes, w.log)
    && Queued(w.held.sent, Boxes(w.log), w.acked)
    && ToldOnce(w.told, w.held.toldAgain, w.log)
    && AnsweredSent(w.answered, w.acked, w.log)
  }

  ghost predicate Inv(w: World) {
    && Core(w)
    && NewestKept(w.asked, w.held.waiting, w.log)
    && WaitsForATimer(w.held.waiting, w.held.unanswered, w.timers)
  }

  /** Leaving only the last of the unanswered changes unanswered, the rest being overdue. */
  lemma Dropping(unanswered: seq<SizeChange>, kept: seq<SizeChange>, changes: seq<SizeChange>, open: nat,
                 now: Instant, later: Instant)
    requires Paced(unanswered, changes, open, now) && now <= later
    requires IsEnd(kept, unanswered)
    requires forall i :: 0 <= i < |unanswered| - |kept| ==> unanswered[i].since + PATIENCE <= later
    ensures Paced(kept, changes, open, later)
  {
    var at := |changes| - |unanswered|;
    forall i | at <= i < |changes| - |kept| ensures changes[i].since + PATIENCE <= later {
      assert changes[i] == unanswered[i - at];
    }
  }

  lemma Acking(unanswered: seq<SizeChange>, changes: seq<SizeChange>, open: nat, now: Instant, acked: Serial)
    requires Paced(unanswered, changes, open, now)
    ensures var kept := Filter(unanswered, After(acked));
            && |kept| <= |unanswered| && (|kept| == |unanswered| ==> kept == unanswered)
            && Paced(kept, changes, if |kept| < |unanswered| then |changes| - |kept| else open, now)
  {
    var at := |changes| - |unanswered|;
    assert forall i :: 0 <= i < |unanswered| ==> unanswered[i] == changes[at + i];
    assert KeepsOn(unanswered, After(acked));
    FilterIsSuffix(unanswered, After(acked));
  }

  lemma Changing(unanswered: seq<SizeChange>, changes: seq<SizeChange>, open: nat, now: Instant, change: SizeChange)
    requires Paced(unanswered, changes, open, now) && |unanswered| < UNANSWERED && now <= change.since
    requires forall i :: 0 <= i < |changes| ==> changes[i].serial < change.serial
    ensures Paced(unanswered + [change], changes + [change], open, change.since)
  {
    var all := changes + [change];
    forall i, j | open <= i && j == i + UNANSWERED && j < |all| ensures all[i].since + PATIENCE <= all[j].since {
      if j == |changes| {
        assert i < |changes| - |unanswered|;
      }
    }
  }

  // Sending a resize.

  ghost predicate MayFollow(log: seq<Sent>, resize: Resize) {
    && resize.number != LAST_SHOWN_BOX
    && (log != [] ==> var last := log[|log| - 1].resize; last.number < resize.number || last == resize)
  }

  lemma SendPaced(w: World, resize: Resize, at: Instant, serial: Serial)
    requires Paced(w.held.unanswered, w.changes, w.open, w.now) && ChangesSent(w.changes, w.log)
    requires w.now <= at && FreshSerial(w, serial)
    requires |w.held.unanswered| < UNANSWERED || w.held.size == Some(resize.size)
    ensures var after := SendNow(w, resize, at, serial);
            Paced(after.held.unanswered, after.changes, after.open, after.now) && ChangesSent(after.changes, after.log)
  {
    var changed := w.held.size != Some(resize.size);
    if changed {
      Changing(w.held.unanswered, w.changes, w.open, w.now, SizeChange(serial, at));
    }
  }

  lemma SendToldOnce(told: seq<Resize>, toldAgain: Option<Resize>, log: seq<Sent>, sent: Sent)
    requires ToldOnce(told, toldAgain, log) && MayFollow(log, sent.resize)
    ensures ToldOnce(told, toldAgain, log + [sent])
  {
  }

  lemma SendQueued(sent: seq<SentBox>, log: seq<Sent>, acked: Option<Serial>, more: Sent)
    requires Queued(sent, Boxes(log), acked)
    ensures Queued(sent + [SentBox(more.serial, more.resize.number, more.resize.deviceSize)], Boxes(log + [more]),
                   acked)
  {
    assert Boxes(log + [more]) == Boxes(log) + [SentBox(more.serial, more.resize.number, more.resize.deviceSize)];
  }

  lemma SendOrdered(log: seq<Sent>, sent: Sent)
    requires Ordered(log) && MayFollow(log, sent.resize)
    requires log == [] || log[|log| - 1].serial < sent.serial
    ensures Ordered(log + [sent])
  {
  }

  lemma SendAnswered(answered: Option<nat>, acked: Option<Serial>, log: seq<Sent>, sent: Sent)
    requires AnsweredSent(answered, acked, log)
    ensures AnsweredSent(answered, acked, log + [sent])
  {
    if answered.Some? {
      var i :| 0 <= i < |log| && log[i].resize.number == answered.value && log[i].serial <= acked.value;
      assert (log + [sent])[i] == log[i];
    }
  }

  /** Sending a resize no older than the last keeps everything, if it may change the size or does not. */
  lemma SendKeeps(w: World, resize: Resize, at: Instant, serial: Serial)
    requires Core(w) && w.now <= at && FreshSerial(w, serial) && MayFollow(w.log, resize)
    requires |w.held.unanswered| < UNANSWERED || w.held.size == Some(resize.size)
    ensures Core(SendNow(w, resize, at, serial))
  {
    hide Paced, Ordered, ToldOnce, Queued, AnsweredSent, Boxes;
    var sent := Sent(serial, resize, at, w.held.size != Some(resize.size));
    SendPaced(w, resize, at, serial);
    SendOrdered(w.log, sent);
    SendToldOnce(w.told, w.held.toldAgain, w.log, sent);
    SendQueued(w.held.sent, w.log, w.acked, sent);
    SendAnswered(w.answered, w.acked, w.log, sent);
  }

  // Each event keeps everything.

  /** What holds once overdue changes are given up on: a resize may wait though there is room. */
  ghost predicate Half(w: World) {
    && Core(w)
    && NewestKept(w.asked, w.held.waiting, w.log)
    && (w.held.waiting.Some? && |w.held.unanswered| == UNANSWERED ==>
         w.held.unanswered[0].since + PATIENCE in w.timers)
  }

  lemma GaveUpHalf(w: World, now: Instant)
    requires Inv(w) && w.now <= now
    ensures Half(GaveUp(w, now))
    ensures var left := GaveUp(w, now).held.unanswered;
            |left| == UNANSWERED ==> now < left[0].since + PATIENCE
  {
    var left := Filter(w.held.unanswered, StillWaitedOn(now));
    DroppedOld(w.held.unanswered, now);
    Dropping(w.held.unanswered, left, w.changes, w.open, w.now, now);
    HalfWith(w, left, now);
  }

  lemma HalfWith(w: World, left: seq<SizeChange>, now: Instant)
    requires Inv(w) && Paced(left, w.changes, w.open, now)
    requires |left| <= |w.held.unanswered| && (|left| == |w.held.unanswered| ==> left == w.held.unanswered)
    ensures Half(w.(held := w.held.(unanswered := left), now := now))
  {
  }

  lemma LaidOutKeeps(w: World, resize: Resize, sentAt: Instant, serial: Serial)
    requires Half(w) && w.now <= sentAt && FreshSerial(w, serial) && resize.number != LAST_SHOWN_BOX
    requires w.asked.Some? ==> w.asked.value.number < resize.number
    ensures Inv(LaidOut(w, resize, sentAt, serial))
  {
    hide MayFollow, ToldOnce, AnsweredSent, Queued, Ordered, Boxes, SendNow;
    if Queueing(w.held, resize).1.Send? {
      LaidOutSends(w, resize, sentAt, serial);
    } else {
      NewWaiting(w, Some(resize), resize, LaidOut(w, resize, sentAt, serial).timers);
    }
  }

  lemma LaidOutSends(w: World, resize: Resize, sentAt: Instant, serial: Serial)
    requires Core(w) && w.now <= sentAt && FreshSerial(w, serial) && MayFollow(w.log, resize)
    requires |w.held.unanswered| < UNANSWERED || w.held.size == Some(resize.size)
    ensures Inv(SendNow(w.(held := w.held.(waiting := None), asked := Some(resize)), resize, sentAt, serial))
  {
    NewWaiting(w, None, resize, w.timers);
    SendKeeps(w.(held := w.held.(waiting := None), asked := Some(resize)), resize, sentAt, serial);
  }

  lemma NewWaiting(w: World, waiting: Option<Resize>, asked: Resize, timers: set<Instant>)
    requires Core(w)
    ensures Core(w.(held := w.held.(waiting := waiting), asked := Some(asked), timers := timers))
  {
  }

  lemma LayoutKeeps(w: World, event: Event)
    requires Inv(w) && Allowed(w, event) && event.Layout?
    ensures Inv(Next(w, event))
  {
    GaveUpHalf(w, event.now);
    LaidOutKeeps(GaveUp(w, event.now), event.resize, event.sentAt, event.serial);
  }

  lemma CommittedKeeps(w: World, acked: Serial, left: seq<SizeChange>, sentAt: Instant, serial: Serial)
    requires Inv(w) && w.now <= sentAt && FreshSerial(w, serial) && NotBefore(w.acked, Some(acked))
    requires |left| <= |w.held.unanswered| && (|left| == |w.held.unanswered| ==> left == w.held.unanswered)
    requires var changes := w.changes;
             && |left| <= |changes|
             && Paced(left, changes, if |left| < |w.held.unanswered| then |changes| - |left| else w.open, w.now)
    ensures Inv(Committed(w, acked, left, sentAt, serial))
  {
    var (held, released) := Releasing(w.held, left);
    var open := if |left| < |w.held.unanswered| then |w.changes| - |left| else w.open;
    var after := w.(held := held, acked := Some(acked), open := open);
    assert Core(after);
    if released.Some? {
      SendKeeps(after, released.value, sentAt, serial);
    }
  }

  lemma CommitKeeps(w: World, event: Event)
    requires Inv(w) && Allowed(w, event) && event.Commit?
    ensures Inv(Next(w, event))
  {
    if event.acked.Some? {
      var left := Filter(w.held.unanswered, After(event.acked.value));
      Acking(w.held.unanswered, w.changes, w.open, w.now, event.acked.value);
      CommittedKeeps(w, event.acked.value, left, event.sentAt, event.serial);
    }
  }

  lemma DrawKeeps(w: World, event: Event)
    requires Inv(w) && Allowed(w, event) && event.Draw?
    ensures Inv(Next(w, event))
  {
    var (held, again) := Drawing(w.held, event.acked, event.drawn);
    var after := w.(held := held, acked := event.acked, told := if again.Some? then w.told + [again.value] else w.told);
    assert Core(after);
    if again.Some? {
      SendKeeps(after, again.value, event.sentAt, event.serial);
    }
  }

  lemma FiredKeeps(w: World, timer: Instant, sentAt: Instant, serial: Serial)
    requires Half(w) && w.now <= sentAt && FreshSerial(w, serial)
    requires |w.held.unanswered| == UNANSWERED ==> timer < w.held.unanswered[0].since + PATIENCE
    ensures Inv(Fired(w, timer, sentAt, serial))
  {
    var (held, released) := ReleasingUnlessFull(w.held);
    var after := w.(held := held, timers := w.timers - {timer});
    assert Core(after);
    if released.Some? {
      SendKeeps(after, released.value, sentAt, serial);
    }
  }

  lemma FireKeeps(w: World, event: Event)
    requires Inv(w) && Allowed(w, event) && event.Fire?
    ensures Inv(Next(w, event))
  {
    hide Inv, Half;
    GaveUpHalf(w, event.now);
    FiredKeeps(GaveUp(w, event.now), event.timer, event.sentAt, event.serial);
  }

  /** What `answered` would say if it had never forgotten a box. */
  function NeverForgetting(log: seq<Sent>, acked: Option<Serial>): nat {
    var last := if acked.None? then None else LastAtMost(Boxes(log), acked.value);
    if last.None? then LAST_SHOWN_BOX else log[last.value].resize.number
  }

  lemma LastInEnd(sent: seq<SentBox>, boxes: seq<SentBox>, acked: Serial)
    requires IsEnd(sent, boxes) && (|sent| < |boxes| ==> sent != [] && sent[0].serial <= acked)
    ensures var from, last := |boxes| - |sent|, LastAtMost(boxes, acked);
            && LastAtMost(sent, acked) == (if last.None? then None else Some(last.value - from))
            && (last.Some? ==> from <= last.value)
  {
    var from, last, kept := |boxes| - |sent|, LastAtMost(boxes, acked), LastAtMost(sent, acked);
    if kept.Some? {
      assert boxes[kept.value + from].serial <= acked;
    }
    if last.Some? && from <= last.value {
      assert sent[last.value - from].serial <= acked;
    }
  }

  /** Forgetting boxes never changes an answer while acks do not go back. */
  lemma AnswersAsIfNothingForgotten(w: World, acked: Option<Serial>)
    requires Inv(w) && NotBefore(w.acked, acked)
    ensures Answering(w.held, acked).1 == NeverForgetting(w.log, acked)
    ensures Queued(Answering(w.held, acked).0.sent, Boxes(w.log), acked)
  {
    if acked.Some? {
      QueueAnswers(w.held.sent, Boxes(w.log), w.acked, acked.value);
    }
  }

  lemma QueueAnswers(sent: seq<SentBox>, boxes: seq<SentBox>, before: Option<Serial>, acked: Serial)
    requires Queued(sent, boxes, before) && NotBefore(before, Some(acked))
    ensures var last, kept := LastAtMost(boxes, acked), LastAtMost(sent, acked);
            && (last.Some? <==> kept.Some?)
            && (kept.Some? ==> sent[kept.value] == boxes[last.value])
            && Queued(if kept.Some? then sent[kept.value..] else sent, boxes, Some(acked))
  {
    LastInEnd(sent, boxes, acked);
  }

  lemma AnswerKeeps(w: World, event: Event)
    requires Inv(w) && Allowed(w, event) && event.Answer?
    ensures Inv(Next(w, event))
  {
    AnswersAsIfNothingForgotten(w, event.acked);
    var last := if event.acked.None? then None else LastAtMost(Boxes(w.log), event.acked.value);
    assert last.Some? ==> w.log[last.value].serial <= event.acked.value;
  }

  lemma NextKeeps(w: World, event: Event)
    requires Inv(w) && Allowed(w, event)
    ensures Inv(Next(w, event))
  {
    match event
    case Layout(_, _, _, _) => LayoutKeeps(w, event);
    case Commit(_, _, _) => CommitKeeps(w, event);
    case Draw(_, _, _, _) => DrawKeeps(w, event);
    case Fire(_, _, _, _) => FireKeeps(w, event);
    case Answer(_) => AnswerKeeps(w, event);
  }

  lemma {:induction false} RunKeeps(w: World, events: seq<Event>)
    requires Inv(w) && AllowedRun(w, events)
    ensures Inv(Run(w, events))
    decreases |events|
  {
    if events != [] {
      NextKeeps(w, events[0]);
      RunKeeps(Next(w, events[0]), events[1..]);
    }
  }

  lemma InitialInv()
    ensures Inv(INITIAL)
  {
  }

  // The main results, over every run the callers' rules allow.

  ghost predicate Reachable(w: World) {
    exists events :: AllowedRun(INITIAL, events) && Run(INITIAL, events) == w
  }

  lemma ReachableKeeps(w: World)
    requires Reachable(w)
    ensures Inv(w)
  {
    var events :| AllowedRun(INITIAL, events) && Run(INITIAL, events) == w;
    InitialInv();
    RunKeeps(INITIAL, events);
  }

  /**
   * The newest size asked for is never lost: it is the newest sent or the one
   * waiting. A resize waits behind exactly three unanswered changes, with a
   * timer armed for the moment the oldest of them is overdue.
   */
  lemma NewestIsNeverLost(w: World)
    requires Reachable(w)
    ensures w.asked.Some? ==>
              || w.held.waiting == w.asked
              || (w.held.newest.Some? && w.held.newest.value.resize == w.asked.value)
    ensures w.held.waiting.Some? ==>
              && w.held.waiting == w.asked
              && |w.held.unanswered| == UNANSWERED
              && w.held.unanswered[0].since + PATIENCE in w.timers
  {
    ReachableKeeps(w);
  }

  /** That timer, when it fires, sends the waiting resize. */
  lemma TimerSendsTheWaiting(w: World, event: Event)
    requires Reachable(w) && w.held.waiting.Some? && event.Fire? && Allowed(w, event)
    requires w.held.unanswered != [] && event.timer == w.held.unanswered[0].since + PATIENCE
    ensures var after := Next(w, event);
            && after.held.waiting.None?
            && after.held.newest == Some(Configure(event.serial, w.held.waiting.value))
            && |after.log| == |w.log| + 1 && after.log[|w.log|].resize == w.held.waiting.value
  {
    hide ToldOnce, AnsweredSent, Queued, Boxes, Reachable, Ordered;
    ReachableKeeps(w);
    GaveUpHalf(w, event.now);
    DroppedOld(w.held.unanswered, event.now);
  }

  /** The size changes of a log, as a run records them. */
  function ChangesIn(log: seq<Sent>): seq<SizeChange> {
    if log == [] then []
    else
      var last := log[|log| - 1];
      ChangesIn(log[..|log| - 1]) + if last.changed then [SizeChange(last.serial, last.at)] else []
  }

  lemma NextRecords(w: World, event: Event)
    requires w.changes == ChangesIn(w.log)
    ensures Next(w, event).changes == ChangesIn(Next(w, event).log)
  {
    hide ChangesIn, Resizing, Queueing, GivenUp, Sending, Committing, Releasing, Drawing, GivingUp, Answering;
    var after := Next(w, event);
    if |after.log| > |w.log| {
      ChangesInMore(w.log, after.log[|w.log|]);
    }
  }

  lemma ChangesInMore(log: seq<Sent>, sent: Sent)
    ensures ChangesIn(log + [sent]) == ChangesIn(log) + if sent.changed then [SizeChange(sent.serial, sent.at)] else []
  {
    assert (log + [sent])[..|log|] == log;
  }

  lemma {:induction false} RunRecords(w: World, events: seq<Event>)
    requires w.changes == ChangesIn(w.log)
    ensures Run(w, events).changes == ChangesIn(Run(w, events).log)
    decreases |events|
  {
    if events != [] {
      NextRecords(w, events[0]);
      RunRecords(Next(w, events[0]), events[1..]);
    }
  }

  lemma ReachableRecords(w: World)
    requires Reachable(w)
    ensures w.changes == ChangesIn(w.log)
  {
    var events :| AllowedRun(INITIAL, events) && Run(INITIAL, events) == w;
    RunRecords(INITIAL, events);
  }

  /** No event of the run is a commit that answers a size change. */
  ghost predicate AnswersNothing(w: World, events: seq<Event>)
    decreases |events|
  {
    events == [] ||
    (&& (events[0].Commit? ==> |Committing(w.held, events[0].acked).0.unanswered| == |w.held.unanswered|)
     && AnswersNothing(Next(w, events[0]), events[1..]))
  }

  lemma {:induction false} StaysOpen(w: World, events: seq<Event>)
    requires AnswersNothing(w, events)
    ensures Run(w, events).open == w.open
    decreases |events|
  {
    if events != [] {
      StaysOpen(Next(w, events[0]), events[1..]);
    }
  }

  /**
   * Never more than three size changes are unanswered, and while no commit
   * answers one, any two changes sent three apart are `PATIENCE` apart: no
   * window that long holds four.
   */
  lemma AtMostThreeAtOnce(w: World, events: seq<Event>)
    requires Reachable(w) && AllowedRun(w, events) && AnswersNothing(w, events)
    ensures var after := Run(w, events);
            && after.changes == ChangesIn(after.log)
            && |after.held.unanswered| <= UNANSWERED
            && forall i: nat, j: nat |
                 |w.changes| - |w.held.unanswered| <= i && i + UNANSWERED <= j < |after.changes| ::
                 after.changes[i].since + PATIENCE <= after.changes[j].since
  {
    ReachableKeeps(w);
    ReachableRecords(w);
    RunKeeps(w, events);
    StaysOpen(w, events);
    RunRecords(w, events);
    ThreeApart(Run(w, events), w.open);
  }

  lemma ThreeApart(w: World, open: nat)
    requires Paced(w.held.unanswered, w.changes, open, w.now)
    ensures forall i: nat, j: nat | open <= i && i + UNANSWERED <= j < |w.changes| ::
              w.changes[i].since + PATIENCE <= w.changes[j].since
  {
    forall i: nat, j: nat | open <= i && i + UNANSWERED <= j < |w.changes|
      ensures w.changes[i].since + PATIENCE <= w.changes[j].since
    {
      assert w.changes[i].since + PATIENCE <= w.changes[i + UNANSWERED].since;
    }
  }

  lemma AnswerIsNoEarlier(log: seq<Sent>, i: nat, acked: Serial)
    requires Ordered(log) && i < |log| && log[i].serial <= acked
    ensures NeverForgetting(log, Some(acked)) != LAST_SHOWN_BOX
    ensures log[i].resize.number <= NeverForgetting(log, Some(acked))
  {
    assert Boxes(log)[i].serial <= acked;
  }

  /** An answer never goes back to an earlier box, or to the one shown last. */
  lemma AnswersGoForward(w: World, event: Event)
    requires Reachable(w) && Allowed(w, event) && event.Answer?
    ensures var number := Answering(w.held, event.acked).1;
            && number == NeverForgetting(w.log, event.acked)
            && (w.answered.Some? ==> number != LAST_SHOWN_BOX && w.answered.value <= number)
  {
    ReachableKeeps(w);
    AnswersAsIfNothingForgotten(w, event.acked);
    if w.answered.Some? {
      var i :| 0 <= i < |w.log| && w.log[i].resize.number == w.answered.value && w.log[i].serial <= w.acked.value;
      AnswerIsNoEarlier(w.log, i, event.acked.value);
    }
  }

  lemma SentBoxes(sent: seq<SentBox>, log: seq<Sent>, acked: Option<Serial>)
    requires Queued(sent, Boxes(log), acked)
    ensures |sent| <= |log|
    ensures forall i :: 0 <= i < |sent| ==>
              var logged := log[i + |log| - |sent|].resize;
              sent[i].number == logged.number && sent[i].deviceSize == logged.deviceSize
  {
    assert forall i :: 0 <= i < |sent| ==> sent[i] == Boxes(log)[i + |log| - |sent|];
  }

  /** A box the queue still holds has the one size it was sent with; the box shown last has none. */
  lemma SizesAreSent(sent: seq<SentBox>, log: seq<Sent>, number: nat)
    requires Ordered(log) && |sent| <= |log|
    requires forall i :: 0 <= i < |sent| ==>
               var logged := log[i + |log| - |sent|].resize;
               sent[i].number == logged.number && sent[i].deviceSize == logged.deviceSize
    ensures BoxSize(sent, number).Some? ==>
              && number != LAST_SHOWN_BOX
              && forall i :: 0 <= i < |log| && log[i].resize.number == number ==>
                   log[i].resize.deviceSize == BoxSize(sent, number).value
  {
    var size := BoxSize(sent, number);
    if size.Some? {
      var i :| 0 <= i < |sent| && sent[i].number == number && sent[i].deviceSize == size.value;
      var logged := log[i + |log| - |sent|];
      assert logged.resize.number == number;
    }
  }

  /** The size of an answered box is known, and is the size it was sent with. */
  lemma AnsweredSize(w: World, event: Event)
    requires Reachable(w) && Allowed(w, event) && event.Answer?
    ensures var (held, number) := Answering(w.held, event.acked);
            && (BoxSize(held.sent, number).Some? <==> number != LAST_SHOWN_BOX)
            && forall i :: 0 <= i < |w.log| && w.log[i].resize.number == number ==>
                 BoxSize(held.sent, number) == Some(w.log[i].resize.deviceSize)
  {
    ReachableKeeps(w);
    AnswersAsIfNothingForgotten(w, event.acked);
    var (held, number) := Answering(w.held, event.acked);
    AnsweredSizeIn(w.held, w.log, event.acked);
    assert number == LAST_SHOWN_BOX ==> forall i :: 0 <= i < |w.log| ==> w.log[i].resize.number != number;
  }

  lemma AnsweredSizeIn(h: Held, log: seq<Sent>, acked: Option<Serial>)
    requires Ordered(log) && Queued(Answering(h, acked).0.sent, Boxes(log), acked)
    ensures var (held, number) := Answering(h, acked);
            && (BoxSize(held.sent, number).Some? <==> number != LAST_SHOWN_BOX)
            && (number != LAST_SHOWN_BOX ==>
                 forall i :: 0 <= i < |log| && log[i].resize.number == number ==>
                   BoxSize(held.sent, number) == Some(log[i].resize.deviceSize))
  {
    var (held, number) := Answering(h, acked);
    SentBoxes(held.sent, log, acked);
    SizesAreSent(held.sent, log, number);
    if number != LAST_SHOWN_BOX {
      assert held.sent[0].number == number;
    }
  }

  /** Each resize is told again at most once. */
  lemma ToldAgainOnce(w: World)
    requires Reachable(w)
    ensures forall i, j :: 0 <= i < j < |w.told| ==> w.told[i] != w.told[j] && w.told[i].number < w.told[j].number
  {
    ReachableKeeps(w);
  }
}
