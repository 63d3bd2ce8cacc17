/**
 * Runs of the hub that leave a page with an old theme, each by one of the two
 * kinds of step that lose it. In both the threads take turns, each going on
 * until it holds no lock: the hub needs no close race to go wrong. A lemma for
 * each turn says what it makes of the world, and the runs put turns together.
 */
module HubStale {
  import opened Basics
  import opened ChromeHub
  import opened HubRuns
  import opened HubTheme

  // Runs in which the threads take turns.

  ghost predicate OnlyHolds(w: World, t: Thread) {
    forall s :: s != t ==> Holds(w, s) == {}
  }

  ghost predicate NothingHeld(w: World) {
    forall t :: Holds(w, t) == {}
  }

  lemma {:induction false} RunsOn(start: World, events: seq<Event>, w: World, event: Event)
    requires RunsTo(start, events, w) && Enabled(w, event)
    ensures RunsTo(start, events + [event], Next(w, event))
    decreases |events|
  {
    hide Enabled, Next;
    if events == [] {
      assert RunsTo(Next(w, event), [], Next(w, event));
      assert ([] + [event])[1..] == [];
    } else {
      RunsOn(Next(start, events[0]), events[1..], w, event);
      assert (events + [event])[1..] == events[1..] + [event];
    }
  }

  /** A thread steps while no other holds a lock. */
  lemma Takes(w: World, event: Event) returns (after: World)
    requires Reachable(w) && OnlyHolds(w, Owner(event)) && HasNext(w, event)
    ensures after == Next(w, event) && Reachable(after) && OnlyHolds(after, Owner(event))
  {
    hide Holds, Wants, Next, RunsTo, Initial, HasNext;
    after := Next(w, event);
    var t := Owner(event);
    if Stepper(event).Some? && Wants(w, t).Some? {
      AcquiresInOrder(w, t);
      assert Wants(w, t).value !in Holds(w, t);
    }
    assert Enabled(w, event);
    forall s | s != t ensures Holds(after, s) == {} {
      OthersKeepTheirLocks(w, event, s);
    }
    var start, events :| Initial(start) && RunsTo(start, events, w);
    RunsOn(start, events, w, event);
  }

  lemma WaylandSetsTheme(w: World, theme: Theme) returns (after: World)
    requires Reachable(w) && NothingHeld(w) && w.wayland.WIdle? && theme != w.theme
    ensures Reachable(after) && NothingHeld(after)
    ensures after == w.(theme := theme, queue := w.queue + [Themed(theme)])
  {
    hide Reachable, RunsTo;
    after := Takes(w, WaylandStarts(SetTheme(theme)));
    after := Takes(after, WaylandSteps(0));
    after := Takes(after, WaylandSteps(0));
    assert after.wayland == WTelling([Themed(theme)], true);
    after := Takes(after, WaylandSteps(0));
    after := Takes(after, WaylandSteps(0));
    after := Takes(after, WaylandSteps(0));
    after := Takes(after, WaylandSteps(0));
  }

  /** The server takes a message to a list with nobody in it. */
  lemma ServerWritesNobody(w: World) returns (after: World)
    requires Reachable(w) && NothingHeld(w) && w.server.SIdle? && w.queue != [] && w.chromes == []
    ensures Reachable(after) && NothingHeld(after) && after == w.(queue := w.queue[1..])
  {
    hide Reachable, RunsTo;
    after := Takes(w, ServerSteps(true));
    after := Takes(after, ServerSteps(true));
    after := Takes(after, ServerSteps(true));
  }

  lemma ServerWritesTo(w: World, c: Conn) returns (after: World)
    requires Reachable(w) && NothingHeld(w) && w.server.SIdle? && w.queue != [] && w.chromes == [c] && c in w.conns
    ensures Reachable(after) && NothingHeld(after)
    ensures after == w.(queue := w.queue[1..], conns := w.conns[c := Shown(w.conns[c], w.queue[0])])
  {
    hide Reachable, RunsTo;
    after := Takes(w, ServerSteps(true));
    after := Takes(after, ServerSteps(true));
    assert after.server == SSending(w.queue[0], [c]);
    after := Takes(after, ServerSteps(true));
    after := Takes(after, ServerSteps(true));
    assert after.server == SSending(w.queue[0], []);
    after := Takes(after, ServerSteps(true));
  }

  /** A reader that has read a good hello, and wants to join. */
  function Greeted(desktop: Desktop, theme: Theme): Connection {
    Connection(WantsChromes(Join, HelloReplies(desktop, theme, 0)), true, false, false, YIdle, None, None, false)
  }

  function Joined(desktop: Desktop, theme: Theme): Connection {
    Connection(Reading, true, true, false, YIdle, Some(desktop), Some(theme), true)
  }

  lemma ReaderGreets(w: World, c: Conn) returns (after: World)
    requires Reachable(w) && NothingHeld(w) && c !in w.conns
    ensures Reachable(after) && NothingHeld(after)
    ensures after == w.(conns := w.conns[c := Greeted(w.desktop, w.theme)])
  {
    hide Reachable, RunsTo;
    after := Takes(w, Connects(c));
    after := Takes(after, Says(c, Hello(true)));
    after := Takes(after, ReaderSteps(c, true, 0));
    after := Takes(after, ReaderSteps(c, true, 0));
    assert after.conns[c] == Greeted(w.desktop, w.theme);
  }

  lemma ReaderJoinsList(w: World, c: Conn, theme: Theme) returns (after: World)
    requires Reachable(w) && NothingHeld(w) && c in w.conns && w.conns[c] == Greeted(w.desktop, theme)
    ensures Reachable(after) && NothingHeld(after)
    ensures after == w.(chromes := w.chromes + [c], conns := w.conns[c := Joined(w.desktop, theme)])
  {
    hide Reachable, RunsTo, HelloReplies;
    var replies := HelloReplies(w.desktop, theme, 0);
    var conn := Connection(WantsChromes(Look, replies), true, true, false, YIdle, None, None, false);
    after := Takes(w, ReaderSteps(c, true, 0));
    after := Takes(after, ReaderSteps(c, true, 0));
    assert after == w.(chromes := w.chromes + [c], conns := w.conns[c := conn]);
    after := ReaderLooks(after, c, conn, replies);
    after := ReaderAnswers(after, c, theme);
  }

  lemma ReaderAnswers(w: World, c: Conn, theme: Theme) returns (after: World)
    requires Reachable(w) && NothingHeld(w) && c in w.conns
    requires var replies := HelloReplies(w.desktop, theme, 0);
             w.conns[c] == Connection(Answering(replies), true, true, false, YIdle, None, None, false)
    ensures Reachable(after) && NothingHeld(after)
    ensures after == w.(conns := w.conns[c := Joined(w.desktop, theme)])
  {
    hide Reachable, RunsTo;
    var step := ReaderSteps(c, true, 0);
    assert HelloReplies(w.desktop, theme, 0) == [Other, Displays(w.desktop), Themed(theme)];
    after := Takes(w, step);
    after := Takes(after, step);
    after := Takes(after, step);
    after := Takes(after, step);
    after := Takes(after, step);
    assert after.conns[c].at == Writing([Themed(theme)]);
    after := Takes(after, step);
    after := Takes(after, step);
  }

  lemma ReaderPicks(w: World, c: Conn, conn: Connection, theme: Theme) returns (after: World)
    requires Reachable(w) && NothingHeld(w) && c in w.conns && w.conns[c] == conn
    requires conn.at.Reading? && !conn.app && theme != w.theme
    ensures Reachable(after) && NothingHeld(after)
    ensures after == w.(theme := theme, conns := w.conns[c := conn.(at := TellingTheme([Themed(theme)]))])
  {
    hide Reachable, RunsTo;
    after := Takes(w, Says(c, PickTheme(theme)));
    after := Takes(after, ReaderSteps(c, true, 0));
    after := Takes(after, ReaderSteps(c, true, 0));
    assert after.conns[c].at == TellingTheme([Themed(theme)]);
  }

  lemma ReaderTellsTheme(w: World, c: Conn, conn: Connection, theme: Theme) returns (after: World)
    requires Reachable(w) && NothingHeld(w) && c in w.conns && w.conns[c] == conn
    requires conn.at == TellingTheme([Themed(theme)])
    ensures Reachable(after) && NothingHeld(after)
    ensures after == w.(queue := w.queue + [Themed(theme)], conns := w.conns[c := conn.(at := Reading)])
  {
    hide Reachable, RunsTo;
    after := Takes(w, ReaderSteps(c, true, 0));
    assert after.conns[c].at == TellingTheme([]);
    after := Takes(after, ReaderSteps(c, true, 0));
    after := ReaderLooks(after, c, conn, []);
    after := Moves(after, c, conn, Reading);
  }

  /** A reader that looks at the list and asks for the focus, and has `replies` to write after that. */
  lemma ReaderLooks(w: World, c: Conn, conn: Connection, replies: seq<Message>) returns (after: World)
    requires Reachable(w) && NothingHeld(w) && c in w.conns
    requires w.conns[c] == conn.(at := WantsChromes(Look, replies))
    ensures Reachable(after) && NothingHeld(after)
    ensures after == w.(conns := w.conns[c := conn.(at := Answering(replies))])
  {
    hide Reachable, RunsTo, Next;
    after := Moves(w, c, conn, InChromes(Look, replies));
    after := Moves(after, c, conn, WantsFocus(replies));
    after := ReaderChecksFocus(after, c, conn, replies);
  }

  lemma ReaderChecksFocus(w: World, c: Conn, conn: Connection, replies: seq<Message>) returns (after: World)
    requires Reachable(w) && NothingHeld(w) && c in w.conns && w.conns[c] == conn.(at := WantsFocus(replies))
    ensures Reachable(after) && NothingHeld(after)
    ensures after == w.(conns := w.conns[c := conn.(at := Answering(replies))])
  {
    hide Reachable, RunsTo, Next;
    after := Moves(w, c, conn, InFocus(replies));
    after := Moves(after, c, conn, TellingFocus(0, replies));
    after := Moves(after, c, conn, Answering(replies));
  }

  /** A reader that writes nothing, tells nothing and leaves the list as it is goes to `to`. */
  lemma Moves(w: World, c: Conn, conn: Connection, to: ReaderAt) returns (after: World)
    requires Reachable(w) && OnlyHolds(w, Reader(c)) && c in w.conns && w.conns[c] == conn.(at := w.conns[c].at)
    requires match w.conns[c].at
             case WantsChromes(Look, replies) => to == InChromes(Look, replies)
             case InChromes(Look, replies) => to == WantsFocus(replies)
             case WantsFocus(replies) => to == InFocus(replies)
             case InFocus(replies) => to == TellingFocus(0, replies)
             case TellingFocus(left, replies) => left == 0 && to == Answering(replies)
             case Answering(replies) => replies == [] && to == Reading
             case _ => false
    ensures after == w.(conns := w.conns[c := conn.(at := to)])
    ensures Reachable(after) && OnlyHolds(after, Reader(c))
  {
    hide Reachable, RunsTo, Shown;
    after := Takes(w, ReaderSteps(c, true, 0));
  }

  // The two runs.

  ghost predicate EndsStale(w: World) {
    Reachable(w) && AtRest(w) && exists c :: c in w.chromes && c in w.conns && w.conns[c].themed != Some(w.theme)
  }

  lemma FirstWorld() returns (w: World)
    ensures Reachable(w) && NothingHeld(w)
    ensures w == World(0, Dark, [], [], WIdle, SIdle, map[])
  {
    w := World(0, Dark, [], [], WIdle, SIdle, map[]);
    assert Initial(w) && RunsTo(w, [], w);
  }

  /**
   * The theme is set after a hello is read, and written to the list before its
   * reader joins it: the answer brings the old theme, and nothing after it.
   */
  lemma AnswerComesLate()
    ensures exists w :: EndsStale(w)
  {
    hide Reachable;
    var w := FirstWorld();
    w := ReaderGreets(w, 0);
    w := WaylandSetsTheme(w, Light);
    w := ServerWritesNobody(w);
    w := ReaderJoinsList(w, 0, Dark);
    assert 0 in w.chromes;
    assert EndsStale(w);
  }

  /** A page picks one theme and the Wayland thread sets the other right after, but queues it first. */
  lemma ThemesSwap()
    ensures exists w :: EndsStale(w)
  {
    hide Reachable;
    var w := FirstWorld();
    w := ReaderGreets(w, 0);
    w := ReaderJoinsList(w, 0, Dark);
    w := ReaderPicks(w, 0, w.conns[0], Light);
    w := WaylandSetsTheme(w, Dark);
    w := ReaderTellsTheme(w, 0, w.conns[0], Light);
    w := ServerWritesTo(w, 0);
    w := ServerWritesTo(w, 0);
    assert 0 in w.chromes;
    assert EndsStale(w);
  }
}
