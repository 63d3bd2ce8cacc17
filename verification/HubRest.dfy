/** Once nothing new happens to the hub, every interleaving of its threads ends with all of them done. */
module HubRest {
  import opened Basics
  import opened ChromeHub
  import opened HubRuns

  /**
   * A thread goes on with what it had begun, or the server takes from the
   * queue. Nothing else happens: the Wayland thread begins nothing, no chrome
   * connects, speaks or hangs up, and no system call comes in.
   */
  ghost predicate GoesOn(w: World, event: Event) {
    match event
    case WaylandSteps(_) => true
    case ServerSteps(_) => true
    case ReaderSteps(_, _, _) => true
    case SystemSteps(c) => !SystemOf(w, c).YIdle?
    case _ => false
  }

  // A step is always possible.

  lemma ThreadGoesOn(w: World, t: Thread)
    requires Enabled(w, StepOf(t)) || (Wants(w, t).Some? && !Free(w, Wants(w, t).value))
    requires GoesOn(w, StepOf(t))
    ensures exists event :: Enabled(w, event) && GoesOn(w, event)
  {
    if !Enabled(w, StepOf(t)) {
      HeldLockIsLetGo(w, Wants(w, t).value);
      var s :| Enabled(w, StepOf(s)) && Holds(w, s) != {};
      assert GoesOn(w, StepOf(s));
    }
  }

  /** Unless all is done, some thread can go on. */
  lemma SomethingGoesOn(w: World)
    requires !AtRest(w)
    ensures exists event :: Enabled(w, event) && GoesOn(w, event)
  {
    if !w.wayland.WIdle? {
      ThreadGoesOn(w, Wayland);
    } else if !w.server.SIdle? || w.queue != [] {
      ThreadGoesOn(w, Server);
    } else {
      var c :| c in w.conns && !w.conns[c].at.Reading? && !w.conns[c].at.Gone?;
      ThreadGoesOn(w, Reader(c));
    }
  }

  // What is left to do, as five numbers, the first the most important.

  /** How many more places `at` is from reading or gone, those it stays at while it counts down not counted. */
  function ReaderLeft(at: ReaderAt): nat {
    match at
    case Reading => 0
    case WantsHost(_) => 16
    case InHost(_) => 15
    case TellingTheme(_) => 14
    case WantsChromes(Join, _) => 13
    case InChromes(Join, _) => 12
    case WantsChromes(_, _) => 11
    case InChromes(_, _) => 10
    case WantsFocus(_) => 9
    case InFocus(_) => 8
    case TellingFocus(_, _) => 7
    case Answering(_) => 6
    case Writing(_) => 3
    case Freshening(_) => 3
    case Fresh(_, _) => 3
    case WantsOut => 2
    case GoingOut => 1
    case Gone => 0
  }

  function SystemLeft(at: SystemAt): nat {
    match at
    case YIdle => 0
    case YWantsWriter => 2
    case YWriting => 1
  }

  function WaylandLeft(at: WaylandAt): nat {
    match at
    case WIdle => 0
    case WWantsHost(_) => 5
    case WInHost(_) => 4
    case WTelling(_, _) => 3
    case WWantsChromes => 2
    case WInChromes => 1
  }

  /** The places left to a connection's two threads. */
  function ConnLeft(conn: Connection): nat { ReaderLeft(conn.at) + SystemLeft(conn.system) }

  /** What a reader still counts down at its place: messages to tell, or steps to write its replies. */
  function ReaderCount(conn: Connection): nat {
    match conn.at
    case TellingTheme(told) => |told|
    case TellingFocus(left, _) => left
    case Writing(replies) => 3 * |replies| + 2
    case Freshening(replies) => 3 * |replies| + 1
    case Fresh(_, replies) => 3 * |replies|
    case _ => 0
  }

  function WaylandCount(at: WaylandAt): nat { if at.WTelling? then |at.told| else 0 }

  function ServerLeft(at: ServerAt): nat {
    match at
    case SIdle => 0
    case SWantsChromes(_) => 2
    case _ => 1
  }

  function ServerCount(at: ServerAt): nat {
    match at
    case SSending(_, todo) => 2 * |todo| + 1
    case SWriting(_, todo) => 2 * |todo|
    case _ => 0
  }

  ghost function AConn(conns: map<Conn, Connection>): Conn
    requires conns != map[]
    ensures AConn(conns) in conns
  {
    var c :| c in conns;
    c
  }

  /** The total of `f` over the connections. */
  ghost function Total(conns: map<Conn, Connection>, f: Connection -> nat): nat {
    if conns == map[] then 0
    else f(conns[AConn(conns)]) + Total(conns - {AConn(conns)}, f)
  }

  lemma {:induction false} TotalWithout(conns: map<Conn, Connection>, f: Connection -> nat, c: Conn)
    requires c in conns
    ensures Total(conns, f) == f(conns[c]) + Total(conns - {c}, f)
  {
    var first := AConn(conns);
    if c != first {
      TotalWithout(conns - {first}, f, c);
      TotalWithout(conns - {c}, f, first);
      assert conns - {first} - {c} == conns - {c} - {first};
    }
  }

  lemma TotalAfter(conns: map<Conn, Connection>, f: Connection -> nat, c: Conn, conn: Connection)
    requires c in conns
    ensures Total(conns[c := conn], f) + f(conns[c]) == Total(conns, f) + f(conn)
  {
    TotalWithout(conns, f, c);
    TotalWithout(conns[c := conn], f, c);
    assert conns[c := conn] - {c} == conns - {c};
  }

  ghost function PlacesLeft(w: World): nat { WaylandLeft(w.wayland) + Total(w.conns, ConnLeft) }

  ghost function CountsLeft(w: World): nat { WaylandCount(w.wayland) + Total(w.conns, ReaderCount) }

  /** `after` has less left to do than `w`. */
  ghost predicate Less(after: World, w: World) {
    || PlacesLeft(after) < PlacesLeft(w)
    || (PlacesLeft(after) == PlacesLeft(w) && (
        || CountsLeft(after) < CountsLeft(w)
        || (CountsLeft(after) == CountsLeft(w) && (
            || |after.queue| < |w.queue|
            || (|after.queue| == |w.queue| && (
                || ServerLeft(after.server) < ServerLeft(w.server)
                || (ServerLeft(after.server) == ServerLeft(w.server)
                    && ServerCount(after.server) < ServerCount(w.server))))))))
  }

  lemma ApplyingLeavesLess(conn: Connection, said: Said, desktop: Desktop, theme: Theme, count: nat)
    ensures ReaderLeft(Applied(conn, said, desktop, theme, count).at) < 15
  {
  }

  predicate CountsDown(at: ReaderAt) {
    at.TellingTheme? || at.TellingFocus? || at.Writing? || at.Freshening? || at.Fresh?
  }

  lemma ReaderMovesOn(conn: Connection, desktop: Desktop, theme: Theme, ok: bool, count: nat)
    requires !conn.at.Reading? && !conn.at.Gone? && !CountsDown(conn.at)
    ensures ReaderLeft(ReaderAfter(conn, desktop, theme, ok, count).at) < ReaderLeft(conn.at)
  {
    hide Applied;
    match conn.at
    case InHost(said) => ApplyingLeavesLess(conn, said, desktop, theme, count);
    case _ =>
  }

  lemma ReaderCountsDown(conn: Connection, desktop: Desktop, theme: Theme, ok: bool, count: nat)
    requires CountsDown(conn.at)
    ensures var after := ReaderAfter(conn, desktop, theme, ok, count);
            ReaderLeft(after.at) < ReaderLeft(conn.at)
            || (ReaderLeft(after.at) == ReaderLeft(conn.at) && ReaderCount(after) < ReaderCount(conn))
  {
  }

  lemma ReaderDoesLess(conn: Connection, desktop: Desktop, theme: Theme, ok: bool, count: nat)
    requires !conn.at.Reading? && !conn.at.Gone?
    ensures var after := ReaderAfter(conn, desktop, theme, ok, count);
            ConnLeft(after) < ConnLeft(conn)
            || (ConnLeft(after) == ConnLeft(conn) && ReaderCount(after) < ReaderCount(conn))
  {
    hide ReaderAfter, ReaderLeft, ReaderCount, SystemLeft, CountsDown;
    if CountsDown(conn.at) {
      ReaderCountsDown(conn, desktop, theme, ok, count);
    } else {
      ReaderMovesOn(conn, desktop, theme, ok, count);
    }
    ReaderMovesItself(conn, desktop, theme, ok, count);
  }

  lemma ShownLeavesNoLess(w: World, ok: bool)
    ensures PlacesLeft(ServerNext(w, ok)) == PlacesLeft(w) && CountsLeft(ServerNext(w, ok)) == CountsLeft(w)
  {
    if w.server.SWriting? && w.server.todo != [] && w.server.todo[0] in w.conns {
      var c := w.server.todo[0];
      var conn := Shown(w.conns[c], w.server.message);
      TotalAfter(w.conns, ConnLeft, c, conn);
      TotalAfter(w.conns, ReaderCount, c, conn);
    }
  }

  /** Whatever goes on, there is less left to do after it. */
  lemma GoingOnLeavesLess(w: World, event: Event)
    requires Inv(w) && Enabled(w, event) && GoesOn(w, event)
    ensures Less(Next(w, event), w)
  {
    hide Exclusive, Converging;
    match event
    case WaylandSteps(_) =>
    case ServerSteps(ok) =>
      ShownLeavesNoLess(w, ok);
      if w.server.SWriting? {
        assert ListedRight(w, w.server.todo[0]);
      }
    case ReaderSteps(c, ok, count) =>
      var after := ReaderAfter(w.conns[c], w.desktop, w.theme, ok, count);
      ReaderDoesLess(w.conns[c], w.desktop, w.theme, ok, count);
      TotalAfter(w.conns, ConnLeft, c, after);
      TotalAfter(w.conns, ReaderCount, c, after);
    case SystemSteps(c) =>
      var after := SystemNext(w, c).conns[c];
      TotalAfter(w.conns, ConnLeft, c, after);
  }

  /** Whole runs: the world after each step, and the steps. */
  ghost predicate GoesOnUntilRest(worlds: nat -> World, events: nat -> Event) {
    forall i: nat :: !AtRest(worlds(i)) ==>
      Enabled(worlds(i), events(i)) && GoesOn(worlds(i), events(i)) && worlds(i + 1) == Next(worlds(i), events(i))
  }

  lemma {:induction false} RestIsReachedFrom(worlds: nat -> World, events: nat -> Event, i: nat)
    requires GoesOnUntilRest(worlds, events) && Inv(worlds(i))
    ensures exists j: nat :: AtRest(worlds(j)) && Inv(worlds(j))
    decreases PlacesLeft(worlds(i)), CountsLeft(worlds(i)), |worlds(i).queue|, ServerLeft(worlds(i).server),
      ServerCount(worlds(i).server)
  {
    if !AtRest(worlds(i)) {
      StepKeeps(worlds(i), events(i));
      GoingOnLeavesLess(worlds(i), events(i));
      RestIsReachedFrom(worlds, events, i + 1);
    }
  }

  /**
   * In every run from a reachable world in which threads go on, in whatever
   * order and with whatever writes failing, until all are done, a world comes
   * in which all are done and every listed chrome shows the host's desktop.
   */
  lemma EveryRunComesToRest(worlds: nat -> World, events: nat -> Event)
    requires GoesOnUntilRest(worlds, events) && Reachable(worlds(0))
    ensures exists i: nat :: AtRest(worlds(i)) &&
              forall c :: c in worlds(i).chromes ==> ShowsTheDesktop(worlds(i), c)
  {
    ReachableKeeps(worlds(0));
    RestIsReachedFrom(worlds, events, 0);
    var i: nat :| AtRest(worlds(i)) && Inv(worlds(i));
    forall c | c in worlds(i).chromes ensures ShowsTheDesktop(worlds(i), c) {
      AtRestShows(worlds(i), c);
    }
  }
}
