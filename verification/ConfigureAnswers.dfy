/**
 * The object that paces a window's resizes and tells which box a frame was
 * drawn for: its state as a value, each call as a function of it, and the class.
 */
module ConfigureAnswers {
  import opened Basics

  type Serial = int
  type Instant = int
  type Size = (nat, nat)

  /** The number answered when no queued box is; no resize has it. */
  const LAST_SHOWN_BOX: nat := 0

  /** The milliseconds after which an unanswered change no longer holds a resize back. */
  const PATIENCE: nat := 500

  /** The number of unanswered changes at which a further one has to wait. */
  const UNANSWERED: nat := 3

  /** What one layout asks for: the box by its number, and its size in the two units. */
  datatype Resize = Resize(number: nat, deviceSize: Size, size: Size)

  datatype Resized =
    | Send(resize: Resize)
    | Waits(until: Instant)
    | Coalesced

  datatype SentBox = SentBox(serial: Serial, number: nat, deviceSize: Size)
  datatype SizeChange = SizeChange(serial: Serial, since: Instant)
  datatype Configure = Configure(serial: Serial, resize: Resize)

  /** What a `ConfigureAnswers` holds. */
  datatype Held = Held(
    sent: seq<SentBox>,
    size: Option<Size>,
    unanswered: seq<SizeChange>,
    waiting: Option<Resize>,
    newest: Option<Configure>,
    toldAgain: Option<Resize>)

  const NOTHING := Held([], None, [], None, None, None)

  function StillWaitedOn(now: Instant): SizeChange -> bool {
    (change: SizeChange) => now < change.since + PATIENCE
  }

  function After(acked: Serial): SizeChange -> bool {
    (change: SizeChange) => change.serial > acked
  }

  function OldestWhenFull(unanswered: seq<SizeChange>): Option<Instant> {
    if |unanswered| < UNANSWERED then None else Some(unanswered[0].since)
  }

  function GivenUp(h: Held, now: Instant): Held {
    h.(unanswered := Filter(h.unanswered, StillWaitedOn(now)))
  }

  function Queueing(h: Held, resize: Resize): (Held, Resized) {
    var oldest := OldestWhenFull(h.unanswered);
    if oldest.Some? && h.size != Some(resize.size) then
      (h.(waiting := Some(resize)), if h.waiting.Some? then Coalesced else Waits(oldest.value + PATIENCE))
    else (h.(waiting := None), Send(resize))
  }

  function Resizing(h: Held, resize: Resize, now: Instant): (Held, Resized) {
    Queueing(GivenUp(h, now), resize)
  }

  function Sending(h: Held, serial: Serial, resize: Resize, now: Instant): (Held, bool) {
    var changed := h.size != Some(resize.size);
    (h.(sent := h.sent + [SentBox(serial, resize.number, resize.deviceSize)],
        newest := Some(Configure(serial, resize)),
        size := Some(resize.size),
        unanswered := if changed then h.unanswered + [SizeChange(serial, now)] else h.unanswered),
     changed)
  }

  function Committing(h: Held, acked: Option<Serial>): (Held, Option<Resize>) {
    if acked.None? then (h, None) else Releasing(h, Filter(h.unanswered, After(acked.value)))
  }

  /** `left` is what a commit leaves unanswered. */
  function Releasing(h: Held, left: seq<SizeChange>): (Held, Option<Resize>) {
    if |left| < |h.unanswered| then (h.(unanswered := left, waiting := None), h.waiting)
    else (h.(unanswered := left), None)
  }

  function Drawing(h: Held, acked: Option<Serial>, drawn: Size): (Held, Option<Resize>) {
    if && h.newest.Some? && acked == Some(h.newest.value.serial)
       && drawn != h.newest.value.resize.size && h.toldAgain != Some(h.newest.value.resize)
    then (h.(toldAgain := Some(h.newest.value.resize)), Some(h.newest.value.resize))
    else (h, None)
  }

  function GivingUp(h: Held, now: Instant): (Held, Option<Resize>) {
    ReleasingUnlessFull(GivenUp(h, now))
  }

  function ReleasingUnlessFull(h: Held): (Held, Option<Resize>) {
    if OldestWhenFull(h.unanswered).Some? then (h, None) else (h.(waiting := None), h.waiting)
  }

  /** The last configure whose serial is at most `acked`. */
  function LastAtMost(sent: seq<SentBox>, acked: Serial): (r: Option<nat>)
    ensures r.Some? ==> r.value < |sent| && sent[r.value].serial <= acked
    ensures r.Some? ==> forall i :: r.value < i < |sent| ==> acked < sent[i].serial
    ensures r.None? ==> forall i :: 0 <= i < |sent| ==> acked < sent[i].serial
  {
    LastAtMostBelow(sent, acked, |sent|)
  }

  function LastAtMostBelow(sent: seq<SentBox>, acked: Serial, end: nat): (r: Option<nat>)
    requires end <= |sent|
    ensures r.Some? ==> r.value < end && sent[r.value].serial <= acked
    ensures r.Some? ==> forall i :: r.value < i < end ==> acked < sent[i].serial
    ensures r.None? ==> forall i :: 0 <= i < end ==> acked < sent[i].serial
  {
    if end == 0 then None
    else if sent[end - 1].serial <= acked then Some(end - 1)
    else LastAtMostBelow(sent, acked, end - 1)
  }

  function Answering(h: Held, acked: Option<Serial>): (Held, nat) {
    var newest := if acked.None? then None else LastAtMost(h.sent, acked.value);
    if newest.Some? then (h.(sent := h.sent[newest.value..]), h.sent[newest.value].number)
    else (h, LAST_SHOWN_BOX)
  }

  function BoxSize(sent: seq<SentBox>, number: nat): (r: Option<Size>)
    ensures r.Some? <==> exists i :: 0 <= i < |sent| && sent[i].number == number
    ensures r.Some? ==> exists i :: 0 <= i < |sent| && sent[i].number == number && sent[i].deviceSize == r.value
                                    && forall j :: 0 <= j < i ==> sent[j].number != number
  {
    BoxSizeFrom(sent, number, 0)
  }

  function BoxSizeFrom(sent: seq<SentBox>, number: nat, from: nat): (r: Option<Size>)
    requires from <= |sent|
    ensures r.Some? <==> exists i :: from <= i < |sent| && sent[i].number == number
    ensures r.Some? ==> exists i :: from <= i < |sent| && sent[i].number == number && sent[i].deviceSize == r.value
                                    && forall j :: from <= j < i ==> sent[j].number != number
    decreases |sent| - from
  {
    if from == |sent| then None
    else if sent[from].number == number then Some(sent[from].deviceSize)
    else BoxSizeFrom(sent, number, from + 1)
  }

  // Filters keep the end of the queue.

  /** `part` is the end of `whole`. */
  ghost predicate IsEnd<T>(part: seq<T>, whole: seq<T>) {
    |part| <= |whole| && forall i :: 0 <= i < |part| ==> part[i] == whole[i + |whole| - |part|]
  }

  ghost predicate KeepsOn(s: seq<SizeChange>, keep: SizeChange -> bool) {
    forall i, j :: 0 <= i < j < |s| && keep(s[i]) ==> keep(s[j])
  }

  lemma {:induction false} FilterIsSuffix(s: seq<SizeChange>, keep: SizeChange -> bool)
    requires KeepsOn(s, keep)
    ensures var kept := Filter(s, keep);
            && IsEnd(kept, s)
            && forall i :: 0 <= i < |s| - |kept| ==> !keep(s[i])
  {
    if s == [] {
    } else if keep(s[0]) {
      assert forall i :: 0 <= i < |s| ==> keep(s[i]);
      FilterAll(s, keep);
    } else {
      forall i, j | 0 <= i < j < |s[1..]| && keep(s[1..][i]) ensures keep(s[1..][j]) {
        assert keep(s[i + 1]);
      }
      FilterIsSuffix(s[1..], keep);
      var kept := Filter(s[1..], keep);
      assert forall i :: 0 < i < |s| - |kept| ==> s[i] == s[1..][i - 1];
    }
  }

  /** No change is older than one before it. */
  ghost predicate InTime(changes: seq<SizeChange>) {
    forall i, j :: 0 <= i < j < |changes| ==> changes[i].since <= changes[j].since
  }

  lemma DroppedOld(unanswered: seq<SizeChange>, later: Instant)
    requires InTime(unanswered)
    ensures var kept := Filter(unanswered, StillWaitedOn(later));
            && IsEnd(kept, unanswered)
            && (kept != [] ==> later < kept[0].since + PATIENCE)
            && forall i :: 0 <= i < |unanswered| - |kept| ==> unanswered[i].since + PATIENCE <= later
  {
    assert KeepsOn(unanswered, StillWaitedOn(later));
    FilterIsSuffix(unanswered, StillWaitedOn(later));
    HeadIn(Filter(unanswered, StillWaitedOn(later)));
    assert forall i :: 0 <= i < |unanswered| - |Filter(unanswered, StillWaitedOn(later))| ==>
        !StillWaitedOn(later)(unanswered[i]);
  }

  /** The pacing of one window. Every method gives the state and result of its function on `Now()`. */
  class ConfigureAnswers {
    var sent: seq<SentBox>
    var size: Option<Size>
    var unanswered: seq<SizeChange>
    var waiting: Option<Resize>
    var newest: Option<Configure>
    var toldAgain: Option<Resize>

    ghost function Now(): Held
      reads this
    {
      Held(sent, size, unanswered, waiting, newest, toldAgain)
    }

    constructor ()
      ensures Now() == NOTHING
    {
      sent, size, unanswered, waiting, newest, toldAgain := [], None, [], None, None, None;
    }

    /** Decides whether `resize` may be sent, has to wait, or takes the place of the one that waits. */
    method Resize(resize: Resize, now: Instant) returns (resized: Resized)
      modifies this
      ensures (Now(), resized) == Resizing(old(Now()), resize, now)
    {
      hide InTime, IsEnd, Filter;
      GiveUpOnOverdue(now);
      var oldest := OldestUnansweredWhenFull();
      if oldest.Some? && size != Some(resize.size) {
        var replaced := waiting;
        waiting := Some(resize);
        resized := if replaced.Some? then Coalesced else Waits(oldest.value + PATIENCE);
      } else {
        waiting := None;
        resized := Send(resize);
      }
    }

    /** Records that `resize` went out under `serial`; `changed` tells if it counts as unanswered. */
    method Sent(serial: Serial, resize: Resize, now: Instant) returns (changed: bool)
      modifies this
      ensures (Now(), changed) == Sending(old(Now()), serial, resize, now)
    {
      sent := sent + [SentBox(serial, resize.number, resize.deviceSize)];
      newest := Some(Configure(serial, resize));
      changed := size != Some(resize.size);
      if changed {
        size := Some(resize.size);
        unanswered := unanswered + [SizeChange(serial, now)];
      }
    }

    /** Drops the changes a commit answers, and releases the waiting resize if that makes room. */
    method Committed(acked: Option<Serial>) returns (released: Option<Resize>)
      modifies this
      ensures (Now(), released) == Committing(old(Now()), acked)
    {
      if acked.None? {
        return None;
      }
      var before := |unanswered|;
      unanswered := Filter(unanswered, After(acked.value));
      if |unanswered| < before {
        released := waiting;
        waiting := None;
      } else {
        released := None;
      }
    }

    /** Gives the newest resize if it was acked, not drawn, and not repeated before. */
    method Drew(acked: Option<Serial>, drawn: Size) returns (again: Option<Resize>)
      modifies this
      ensures (Now(), again) == Drawing(old(Now()), acked, drawn)
    {
      if newest.None? {
        return None;
      }
      var Configure(serial, resize) := newest.value;
      if acked == Some(serial) && drawn != resize.size && toldAgain != Some(resize) {
        toldAgain := Some(resize);
        again := Some(resize);
      } else {
        again := None;
      }
    }

    /** Drops the changes too old to wait for, and releases the waiting resize if that makes room. */
    method Overdue(now: Instant) returns (released: Option<Resize>)
      modifies this
      ensures (Now(), released) == GivingUp(old(Now()), now)
    {
      hide InTime, IsEnd, Filter;
      GiveUpOnOverdue(now);
      var oldest := OldestUnansweredWhenFull();
      if oldest.Some? {
        released := None;
      } else {
        released := waiting;
        waiting := None;
      }
    }

    method GiveUpOnOverdue(now: Instant)
      modifies this`unanswered
      ensures forall c :: c in unanswered <==> c in old(unanswered) && now < c.since + PATIENCE
      ensures InTime(old(unanswered)) ==> IsEnd(unanswered, old(unanswered))
      ensures unanswered == Filter(old(unanswered), StillWaitedOn(now))
    {
      if InTime(unanswered) {
        DroppedOld(unanswered, now);
      }
      unanswered := Filter(unanswered, StillWaitedOn(now));
    }

    method OldestUnansweredWhenFull() returns (oldest: Option<Instant>)
      ensures oldest.Some? <==> |unanswered| >= UNANSWERED
      ensures oldest.Some? ==> exists i :: 0 <= i < |unanswered| && unanswered[i].since == oldest.value
      ensures oldest.Some? && InTime(unanswered) ==> forall c :: c in unanswered ==> oldest.value <= c.since
      ensures oldest == OldestWhenFull(unanswered)
    {
      if |unanswered| < UNANSWERED {
        return None;
      }
      oldest := Some(unanswered[0].since);
    }

    /** Gives the last queued box sent no later than `acked`, which becomes the first of the queue. */
    method Answered(acked: Option<Serial>) returns (number: nat)
      modifies this
      ensures (Now(), number) == Answering(old(Now()), acked)
    {
      var newest := if acked.None? then None else LastAtMost(sent, acked.value);
      if newest.Some? {
        sent := sent[newest.value..];
        number := sent[0].number;
      } else {
        number := LAST_SHOWN_BOX;
      }
    }

    /** Looks `number` up among the queued boxes. */
    method SizeOfBox(number: nat) returns (found: Option<Size>)
      ensures found.Some? <==> exists i :: 0 <= i < |sent| && sent[i].number == number
      ensures found.Some? ==>
                exists i :: 0 <= i < |sent| && sent[i].number == number && sent[i].deviceSize == found.value
                            && forall j :: 0 <= j < i ==> sent[j].number != number
    {
      found := BoxSize(sent, number);
    }
  }
}
