/** The theme, which several threads set and answers carry as it was: which steps can leave a page with an old one. */
module HubTheme {
  import opened Basics
  import opened ChromeHub
  import opened HubRuns

  function IsTheme(): Message -> bool { (m: Message) => m.Themed? }

  predicate HasTheme(messages: seq<Message>) {
    exists i | 0 <= i < |messages| :: messages[i].Themed?
  }

  /** What a reader at `at` has still to write to its page. */
  function Replies(at: ReaderAt): seq<Message> {
    match at
    case WantsChromes(_, replies) => replies
    case InChromes(_, replies) => replies
    case WantsFocus(replies) => replies
    case InFocus(replies) => replies
    case TellingFocus(_, replies) => replies
    case Answering(replies) => replies
    case Writing(replies) => replies
    case Freshening(replies) => replies
    case Fresh(_, replies) => replies
    case _ => []
  }

  // Where the theme is on its way.

  predicate ReaderTells(at: ReaderAt, theme: Theme) {
    at.TellingTheme? && Themed(theme) in at.told
  }

  predicate WaylandTells(at: WaylandAt, theme: Theme) {
    at.WTelling? && Themed(theme) in at.told
  }

  /** A thread has set `theme` and has still to queue it. */
  ghost predicate StillTells(w: World, theme: Theme) {
    WaylandTells(w.wayland, theme) || exists c :: c in w.conns && ReaderTells(w.conns[c].at, theme)
  }

  /** What the server has still to take to the listed chromes, in order. */
  function Queued(w: World): seq<Message> {
    (if w.server.SWantsChromes? then [w.server.message] else []) + w.queue
  }

  predicate ServerWrites(server: ServerAt) {
    (server.SSending? || server.SWriting?) && server.message.Themed?
  }

  /** A theme has still to be written to `c` by the server. */
  ghost predicate ThemeComes(w: World, c: Conn) {
    || Latest(Queued(w), IsTheme()).Some?
    || StillTells(w, w.theme)
    || (ServerWrites(w.server) && c in w.server.todo)
  }

  /** The page of `conn` has `theme`, or its reader has a theme to write to it, or it is ending. */
  ghost predicate HasOrOwes(conn: Connection, theme: Theme) {
    conn.themed == Some(theme) || HasTheme(Replies(conn.at)) || conn.at.WantsOut? || conn.at.GoingOut?
  }

  /** Unless the host's theme has still to be queued, it is the last of those queued, or else being written. */
  ghost predicate LastIsTheTheme(w: World) {
    StillTells(w, w.theme)
    || match Latest(Queued(w), IsTheme())
       case Some(last) => last == Themed(w.theme)
       case None => ServerWrites(w.server) ==> w.server.message == Themed(w.theme)
  }

  /** The last theme to come is the host's, and a listed chrome to which none comes has it or is answered with one. */
  ghost predicate ThemeKept(w: World) {
    LastIsTheTheme(w) &&
    forall c :: c in w.chromes ==> c in w.conns && (ThemeComes(w, c) || HasOrOwes(w.conns[c], w.theme))
  }

  // The two ways to lose it.

  /** What a step queues for every chrome. */
  function Told(w: World, event: Event): seq<Message> {
    match event
    case WaylandSteps(_) => if w.wayland.WTelling? && w.wayland.told != [] then [w.wayland.told[0]] else []
    case ReaderSteps(c, _, _) => if c in w.conns then Tells(w.conns[c].at) else []
    case _ => []
  }

  /** The step does not queue an old theme after the host's. */
  ghost predicate InOrder(w: World, event: Event) {
    forall theme :: Told(w, event) == [Themed(theme)] ==> theme == w.theme || StillTells(Next(w, event), w.theme)
  }

  predicate WritesTheme(conn: Connection, ok: bool) {
    conn.at.Writing? && conn.at.replies != [] && conn.at.replies[0].Themed? && ok
  }

  /** The step does not answer a listed chrome with an old theme when no theme comes after it. */
  ghost predicate InTime(w: World, event: Event) {
    event.ReaderSteps? && event.conn in w.conns && event.conn in w.chromes ==>
      var conn := w.conns[event.conn];
      WritesTheme(conn, event.ok) ==>
        || conn.at.replies[0].theme == w.theme
        || HasTheme(conn.at.replies[1..])
        || ThemeComes(w, event.conn)
  }

  /** A reader that joins the list has a theme to write. */
  ghost predicate JoinersCarry(w: World) {
    forall c :: c in w.conns ==> JoinerCarries(w.conns[c].at)
  }

  predicate JoinerCarries(at: ReaderAt) {
    match at
    case WantsChromes(Join, replies) => HasTheme(replies)
    case InChromes(Join, replies) => HasTheme(replies)
    case _ => true
  }

  lemma ReaderJoins(conn: Connection, desktop: Desktop, theme: Theme, ok: bool, count: nat)
    requires JoinerCarries(conn.at)
    ensures JoinerCarries(ReaderAfter(conn, desktop, theme, ok, count).at)
  {
    hide HasTheme, Applied, Shown;
    match conn.at
    case InHost(said) => AppliedJoins(conn, said, desktop, theme, count);
    case WantsChromes(_, _) =>
    case InChromes(_, _) =>
    case TellingTheme(_) =>
    case _ => StaysOut(conn, desktop, theme, ok, count);
  }

  lemma StaysOut(conn: Connection, desktop: Desktop, theme: Theme, ok: bool, count: nat)
    requires !conn.at.InHost? && !conn.at.WantsChromes? && !conn.at.InChromes? && !conn.at.TellingTheme?
    ensures var at := ReaderAfter(conn, desktop, theme, ok, count).at; !at.WantsChromes? && !at.InChromes?
  {
    hide Applied, Shown;
  }

  lemma AppliedJoins(conn: Connection, said: Said, desktop: Desktop, theme: Theme, count: nat)
    ensures JoinerCarries(Applied(conn, said, desktop, theme, count).at)
  {
    hide HasTheme, HelloReplies, ThemeTold;
    HelloHasTheme(desktop, theme, count);
  }

  lemma HelloHasTheme(desktop: Desktop, theme: Theme, count: nat)
    ensures HasTheme(HelloReplies(desktop, theme, count))
  {
    assert HelloReplies(desktop, theme, count)[2].Themed?;
  }

  lemma StepJoiners(w: World, event: Event)
    requires JoinersCarry(w) && Enabled(w, event)
    ensures JoinersCarry(Next(w, event))
  {
    hide JoinerCarries;
    match event
    case ReaderSteps(c, ok, count) => ReaderJoins(w.conns[c], w.desktop, w.theme, ok, count);
    case Says(c, said) => HeardNoJoiner(w.conns[c], said);
    case Connects(_) => ReadingNoJoiner(Reading);
    case HangsUp(_) => ReadingNoJoiner(WantsOut);
    case _ =>
  }

  lemma HeardNoJoiner(conn: Connection, said: Said)
    requires conn.at.Reading?
    ensures JoinerCarries(Heard(conn, said).at)
  {
  }

  lemma ReadingNoJoiner(at: ReaderAt)
    requires at.Reading? || at.WantsOut?
    ensures JoinerCarries(at)
  {
  }

  // What a step does to one page.

  lemma TailHasTheme(messages: seq<Message>)
    requires messages != [] && !messages[0].Themed?
    ensures HasTheme(messages) <==> HasTheme(messages[1..])
  {
    if HasTheme(messages) {
      var i :| 0 <= i < |messages| && messages[i].Themed?;
      assert messages[1..][i - 1].Themed?;
    }
  }

  /** Only an answer with another theme takes the theme from a page that has it or is owed one. */
  lemma ReaderOwes(conn: Connection, desktop: Desktop, theme: Theme, ok: bool, count: nat)
    requires Sensible(conn) && JoinerCarries(conn.at) && !conn.at.GoingOut?
    ensures var after := ReaderAfter(conn, desktop, theme, ok, count);
            if WritesTheme(conn, ok) then
              HasOrOwes(after, theme) <==> conn.at.replies[0].theme == theme || HasTheme(conn.at.replies[1..])
            else HasOrOwes(conn, theme) || (conn.at.InChromes? && conn.at.use.Join?) ==> HasOrOwes(after, theme)
  {
    hide HasTheme, Applied;
    if (conn.at.Writing? || conn.at.Fresh?) && conn.at.replies != [] && !conn.at.replies[0].Themed? {
      TailHasTheme(conn.at.replies);
    }
    if conn.at.InHost? {
      AppliedOwes(conn, conn.at.said, desktop, theme, count);
    }
    NoTheme();
  }

  lemma NoTheme()
    ensures !HasTheme([])
  {
  }

  lemma AppliedOwes(conn: Connection, said: Said, desktop: Desktop, theme: Theme, count: nat)
    ensures Applied(conn, said, desktop, theme, count).themed == conn.themed
  {
  }

  lemma HeardOwes(conn: Connection, said: Said, theme: Theme)
    requires conn.at.Reading? && HasOrOwes(conn, theme)
    ensures HasOrOwes(Heard(conn, said), theme)
  {
  }

  // Steps that set the theme, queue it, or do neither.

  /** While the host's theme has still to be queued, all is well. */
  lemma KeptWhileTold(w: World)
    requires StillTells(w, w.theme) && forall c :: c in w.chromes ==> c in w.conns
    ensures ThemeKept(w)
  {
  }

  lemma QueuedThen(w: World, after: World, told: seq<Message>)
    requires after.server == w.server && after.queue == w.queue + told
    ensures Latest(Queued(after), IsTheme())
         == if Latest(told, IsTheme()).Some? then Latest(told, IsTheme()) else Latest(Queued(w), IsTheme())
  {
    assert Queued(after) == Queued(w) + told;
    LatestOfBoth(Queued(w), told, IsTheme());
  }

  /** A theme that is queued is right if it is the host's, or that is yet to be queued. */
  lemma QueuesTheme(w: World, after: World, theme: Theme)
    requires after.server == w.server && after.queue == w.queue + [Themed(theme)] && after.theme == w.theme
    requires forall c :: c in after.chromes ==> c in after.conns
    ensures ThemeKept(after) <==> theme == w.theme || StillTells(after, w.theme)
  {
    hide Latest, StillTells, HasOrOwes;
    QueuedThen(w, after, [Themed(theme)]);
    LatestOfOne(Themed(theme), IsTheme());
  }

  lemma TellersSame(w: World, after: World, c: Conn, theme: Theme)
    requires after.wayland == w.wayland && c in after.conns && after.conns == w.conns[c := after.conns[c]]
    requires c in w.conns && ReaderTells(w.conns[c].at, theme) <==> ReaderTells(after.conns[c].at, theme)
    ensures StillTells(after, theme) <==> StillTells(w, theme)
  {
    hide ReaderTells, WaylandTells;
    if x :| x in w.conns && ReaderTells(w.conns[x].at, theme) {
      assert x in after.conns && ReaderTells(after.conns[x].at, theme);
    }
    if x :| x in after.conns && ReaderTells(after.conns[x].at, theme) {
      assert x in w.conns && ReaderTells(w.conns[x].at, theme);
    }
  }

  /** A step of one connection that neither sets nor queues a theme. */
  lemma ConnThemeKept(w: World, after: World, c: Conn)
    requires ThemeKept(w) && c in after.conns && after.conns == w.conns[c := after.conns[c]]
    requires after.server == w.server && after.theme == w.theme
    requires Latest(Queued(after), IsTheme()) == Latest(Queued(w), IsTheme())
    requires StillTells(after, w.theme) <==> StillTells(w, w.theme)
    requires forall x :: x in after.chromes ==> x in w.chromes || x == c
    ensures ThemeKept(after)
       <==> (c in after.chromes ==> ThemeComes(w, c) || HasOrOwes(after.conns[c], w.theme))
  {
    hide Latest, StillTells, HasOrOwes, Queued;
    assert LastIsTheTheme(after);
    forall x ensures ThemeComes(after, x) <==> ThemeComes(w, x) {
    }
  }

  // Each thread's steps.

  lemma WaylandThemeKept(w: World, event: Event)
    requires ListKept(w) && ThemeKept(w) && Enabled(w, event) && event.WaylandSteps?
    ensures ThemeKept(Next(w, event)) <==> InOrder(w, event)
  {
    hide Latest, HasOrOwes;
    var after := WaylandNext(w, event.count);
    assert forall c :: c in w.chromes ==> ListedRight(w, c);
    match w.wayland
    case WInHost(SetTheme(theme)) =>
      if theme != w.theme {
        assert WaylandTells(after.wayland, theme);
        KeptWhileTold(after);
      } else {
        WaylandTellsNone(w, after);
      }
    case WTelling(told, _) =>
      if told != [] && told[0].Themed? {
        QueuesTheme(w, after, told[0].theme);
        assert Told(w, event) == [Themed(told[0].theme)];
      } else if told != [] {
        QueuedThen(w, after, [told[0]]);
        LatestOfOne(told[0], IsTheme());
        WaylandTellsSame(w, after);
      } else {
        WaylandTellsNone(w, after);
      }
    case _ => WaylandTellsNone(w, after);
  }

  lemma WaylandTellsNone(w: World, after: World)
    requires ThemeKept(w) && after.server == w.server && after.queue == w.queue && after.theme == w.theme
    requires after.conns == w.conns && after.chromes == w.chromes
    requires !WaylandTells(w.wayland, w.theme) && !WaylandTells(after.wayland, w.theme)
    ensures ThemeKept(after)
  {
    assert StillTells(after, w.theme) <==> StillTells(w, w.theme);
  }

  lemma WaylandTellsSame(w: World, after: World)
    requires ThemeKept(w) && after.server == w.server && after.theme == w.theme
    requires Latest(Queued(after), IsTheme()) == Latest(Queued(w), IsTheme())
    requires after.conns == w.conns && after.chromes == w.chromes
    requires WaylandTells(w.wayland, w.theme) <==> WaylandTells(after.wayland, w.theme)
    ensures ThemeKept(after)
  {
    hide Latest, Queued, WaylandTells;
    assert StillTells(after, w.theme) <==> StillTells(w, w.theme);
  }

  lemma ServerThemeKept(w: World, ok: bool)
    requires ListKept(w) && ThemeKept(w)
    ensures ThemeKept(ServerNext(w, ok))
  {
    hide Latest, StillTells, HasOrOwes, ListedRight, Sensible;
    var after := ServerNext(w, ok);
    match w.server
    case SIdle =>
      NoTellerMoves(w, after);
      assert Queued(after) == Queued(w);
    case SWantsChromes(message) =>
      assert [message] + Queued(after) == Queued(w);
      NoTellerMoves(w, after);
      LatestOfBoth([message], Queued(after), IsTheme());
      LatestOfOne(message, IsTheme());
    case SSending(_, _) =>
      NoTellerMoves(w, after);
      assert Queued(after) == Queued(w);
    case SWriting(_, _) => WriteThemeKept(w, ok);
  }

  lemma NoTellerMoves(w: World, after: World)
    requires after.wayland == w.wayland && after.conns == w.conns
    ensures StillTells(after, w.theme) <==> StillTells(w, w.theme)
  {
  }

  lemma WriteThemeKept(w: World, ok: bool)
    requires ListKept(w) && ThemeKept(w) && w.server.SWriting?
    ensures ThemeKept(ServerNext(w, ok))
  {
    hide Latest, Sensible, HasTheme, Replies;
    var after, c, todo := ServerNext(w, ok), w.server.todo[0], w.server.todo;
    assert ListedRight(w, c);
    assert Queued(after) == Queued(w);
    DropsOne(w.chromes, c);
    TellersSame(w, after, c, w.theme);
    hide StillTells;
    assert todo == [c] + todo[1..];
  }

  /** What a reader's step neither setting nor queueing a theme leaves as it was. */
  lemma ReaderTellsSame(conn: Connection, desktop: Desktop, theme: Theme, ok: bool, count: nat)
    requires !(conn.at.TellingTheme? && conn.at.told != [] && conn.at.told[0].Themed?)
    requires ThemeAfter(conn.at, theme) == theme
    ensures ReaderTells(conn.at, theme) <==> ReaderTells(ReaderAfter(conn, desktop, theme, ok, count).at, theme)
    ensures forall m :: m in Tells(conn.at) ==> !m.Themed?
  {
    hide Applied, Shown;
    if conn.at.TellingTheme? && conn.at.told != [] {
      assert conn.at.told == [conn.at.told[0]] + conn.at.told[1..];
    }
    if conn.at.InHost? {
      AppliedTells(conn, conn.at.said, desktop, theme, count);
    }
  }

  lemma AppliedTells(conn: Connection, said: Said, desktop: Desktop, theme: Theme, count: nat)
    requires ThemeAfter(InHost(said), theme) == theme
    ensures !Applied(conn, said, desktop, theme, count).at.TellingTheme?
  {
    hide HelloReplies;
  }

  lemma ReaderThemeKept(w: World, event: Event)
    requires ListKept(w) && JoinersCarry(w) && ThemeKept(w) && Enabled(w, event) && event.ReaderSteps?
    ensures ThemeKept(Next(w, event)) <==> InOrder(w, event) && InTime(w, event)
  {
    hide Latest, HasOrOwes, StillTells, ReaderAfter, Sensible, JoinerCarries, Exclusive;
    var ReaderSteps(c, ok, count) := event;
    var conn, after := w.conns[c], Next(w, event);
    DropsOne(w.chromes, c);
    assert forall x :: x in w.chromes ==> ListedRight(w, x);
    if ThemeAfter(conn.at, w.theme) != w.theme {
      ReaderSets(w, event);
    } else if conn.at.TellingTheme? && conn.at.told != [] && conn.at.told[0].Themed? {
      QueuesTheme(w, after, conn.at.told[0].theme);
      assert Told(w, event) == [Themed(conn.at.told[0].theme)];
    } else {
      ReaderTellsSame(conn, w.desktop, w.theme, ok, count);
      LatestOfNone(Tells(conn.at), IsTheme());
      QueuedThen(w, after, Tells(conn.at));
      TellersSame(w, after, c, w.theme);
      ConnThemeKept(w, after, c);
      ReaderOwesTheme(w, event);
    }
  }

  lemma ReaderSets(w: World, event: Event)
    requires ListKept(w) && Enabled(w, event) && event.ReaderSteps?
    requires ThemeAfter(w.conns[event.conn].at, w.theme) != w.theme
    ensures ThemeKept(Next(w, event)) && InOrder(w, event) && InTime(w, event)
  {
    hide HasOrOwes, Latest;
    var after := Next(w, event);
    assert forall x :: x in w.chromes ==> ListedRight(w, x);
    assert ReaderTells(after.conns[event.conn].at, after.theme);
    KeptWhileTold(after);
  }

  /** A listed reader goes on having or owing the theme, but for a late answer. */
  lemma ReaderOwesTheme(w: World, event: Event)
    requires ListKept(w) && JoinersCarry(w) && ThemeKept(w) && Enabled(w, event) && event.ReaderSteps?
    ensures var c, after := event.conn, Next(w, event);
            (c in after.chromes ==> ThemeComes(w, c) || HasOrOwes(after.conns[c], w.theme)) <==> InTime(w, event)
  {
    hide ThemeComes, HasOrOwes, ReaderAfter, Exclusive, JoinerCarries;
    var conn := w.conns[event.conn];
    DropsOne(w.chromes, event.conn);
    assert JoinerCarries(conn.at);
    if !conn.at.GoingOut? {
      ReaderOwes(conn, w.desktop, w.theme, event.ok, event.count);
    }
  }

  lemma OthersThemeKept(w: World, event: Event)
    requires ListKept(w) && ThemeKept(w) && Enabled(w, event)
    requires event.Connects? || event.Says? || event.HangsUp? || event.SystemSteps?
    ensures ThemeKept(Next(w, event))
  {
    hide Latest, StillTells, Heard;
    var c, after := event.conn, Next(w, event);
    assert forall x :: x in w.chromes ==> ListedRight(w, x);
    assert Queued(after) == Queued(w);
    if event.Says? {
      HeardTells(w.conns[c], event.said);
      if HasOrOwes(w.conns[c], w.theme) {
        HeardOwes(w.conns[c], event.said, w.theme);
      }
    }
    TellersSame(w, after, c, w.theme);
    ConnThemeKept(w, after, c);
  }

  lemma HeardTells(conn: Connection, said: Said)
    requires conn.at.Reading?
    ensures !Heard(conn, said).at.TellingTheme?
  {
  }

  /** A step loses the theme of some page if and only if it queues an old one last or answers late with an old one. */
  lemma StepKeepsThemeExactly(w: World, event: Event)
    requires ListKept(w) && JoinersCarry(w) && ThemeKept(w) && Enabled(w, event)
    ensures ThemeKept(Next(w, event)) <==> InOrder(w, event) && InTime(w, event)
  {
    hide ListKept, JoinersCarry, ThemeKept, ReaderNext, WaylandNext, ServerNext;
    match event
    case WaylandSteps(_) => WaylandThemeKept(w, event);
    case ServerSteps(ok) => ServerThemeKept(w, ok);
    case ReaderSteps(_, _, _) => ReaderThemeKept(w, event);
    case WaylandStarts(plan) => StartThemeKept(w, plan);
    case _ => OthersThemeKept(w, event);
  }

  lemma StartThemeKept(w: World, plan: Plan)
    requires ThemeKept(w) && w.wayland.WIdle?
    ensures ThemeKept(w.(wayland := WWantsHost(plan)))
  {
    WaylandTellsNone(w, w.(wayland := WWantsHost(plan)));
  }

  // Whole runs.

  /** No step of the run queues an old theme last or answers late with one. */
  ghost predicate KeepsUp(w: World, events: seq<Event>)
    decreases |events|
  {
    events == [] || (InOrder(w, events[0]) && InTime(w, events[0]) && KeepsUp(Next(w, events[0]), events[1..]))
  }

  lemma {:induction false} RunKeepsTheme(w: World, events: seq<Event>, end: World)
    requires Inv(w) && JoinersCarry(w) && ThemeKept(w) && RunsTo(w, events, end) && KeepsUp(w, events)
    ensures ThemeKept(end)
    decreases |events|
  {
    hide Exclusive, ListKept, Converging, JoinersCarry, ThemeKept, InOrder, InTime, Enabled, Next;
    if events != [] {
      StepKeeps(w, events[0]);
      StepJoiners(w, events[0]);
      StepKeepsThemeExactly(w, events[0]);
      RunKeepsTheme(Next(w, events[0]), events[1..], end);
    }
  }

  /** At rest, the theme is kept if and only if every listed chrome shows it. */
  lemma AtRestThemeKept(w: World)
    requires AtRest(w)
    ensures ThemeKept(w) <==> forall c :: c in w.chromes ==> c in w.conns && w.conns[c].themed == Some(w.theme)
  {
    assert Queued(w) == [];
    NoTheme();
    assert !StillTells(w, w.theme);
  }

  /** After a run that keeps up, however its threads interleave, every listed chrome shows the host's theme at rest. */
  lemma AtRestAllShowTheTheme(start: World, events: seq<Event>, end: World, c: Conn)
    requires Initial(start) && RunsTo(start, events, end) && KeepsUp(start, events) && AtRest(end) && c in end.chromes
    ensures c in end.conns && end.conns[c].themed == Some(end.theme)
  {
    hide KeepsUp, RunsTo, ThemeKept, AtRest;
    InitialKeepsTheme(start);
    RunKeepsTheme(start, events, end);
    AtRestThemeKept(end);
  }

  lemma InitialKeepsTheme(w: World)
    requires Initial(w)
    ensures Inv(w) && JoinersCarry(w) && ThemeKept(w)
  {
    assert Coming(w) == [] && Queued(w) == [];
  }
}
