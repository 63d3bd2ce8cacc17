/**
 * What holds in every run of the hub, under every interleaving: no thread can
 * be in a cycle of threads waiting on each other's locks, and a chrome in the
 * broadcast list ends up with the host's current desktop.
 */
module HubRuns {
  import opened Basics
  import opened ChromeHub

  // Locks.

  /** Every thread asks only for locks above those it holds. */
  lemma AcquiresInOrder(w: World, t: Thread)
    requires Wants(w, t).Some?
    ensures forall held :: held in Holds(w, t) ==> held.Rank() < Wants(w, t).value.Rank()
  {
  }

  ghost predicate Exclusive(w: World) {
    forall s, t, lock :: lock in Holds(w, s) && lock in Holds(w, t) ==> s == t
  }

  /** Each of `threads` waits for a lock the next one holds, and the last for one the first holds. */
  ghost predicate WaitCycle(w: World, threads: seq<Thread>) {
    threads != [] &&
    forall i :: 0 <= i < |threads| ==>
      && Wants(w, threads[i]).Some?
      && Wants(w, threads[i]).value in Holds(w, threads[if i + 1 < |threads| then i + 1 else 0])
  }

  lemma {:induction false} WantsRise(w: World, threads: seq<Thread>, i: nat)
    requires WaitCycle(w, threads) && i < |threads|
    ensures Wants(w, threads[0]).value.Rank() + i <= Wants(w, threads[i]).value.Rank()
  {
    if i > 0 {
      WantsRise(w, threads, i - 1);
      AcquiresInOrder(w, threads[i]);
    }
  }

  /** No threads wait on each other in a cycle. */
  lemma NoWaitCycle(w: World, threads: seq<Thread>)
    ensures !WaitCycle(w, threads)
  {
    if WaitCycle(w, threads) {
      WantsRise(w, threads, |threads| - 1);
      AcquiresInOrder(w, threads[0]);
    }
  }

  /** The thread whose place an event changes. */
  ghost function Owner(event: Event): Thread {
    match event
    case WaylandStarts(_) => Wayland
    case WaylandSteps(_) => Wayland
    case ServerSteps(_) => Server
    case Connects(c) => Reader(c)
    case Says(c, _) => Reader(c)
    case HangsUp(c) => Reader(c)
    case ReaderSteps(c, _, _) => Reader(c)
    case SystemSteps(c) => System(c)
  }

  /** Where a connection's reader is; one not connected yet is like one that reads. */
  ghost function At(w: World, c: Conn): ReaderAt {
    if c in w.conns then w.conns[c].at else Reading
  }

  ghost function SystemOf(w: World, c: Conn): SystemAt {
    if c in w.conns then w.conns[c].system else YIdle
  }

  /** A step moves only the thread it is a step of. */
  lemma MovesOnlyItsOwner(w: World, event: Event)
    requires Enabled(w, event)
    ensures Owner(event) != Wayland ==> Next(w, event).wayland == w.wayland
    ensures Owner(event) != Server ==> Next(w, event).server == w.server
    ensures forall c :: Owner(event) != Reader(c) ==> At(Next(w, event), c) == At(w, c)
    ensures forall c :: Owner(event) != System(c) ==> SystemOf(Next(w, event), c) == SystemOf(w, c)
  {
    if event.ReaderSteps? {
      ReaderMovesItself(w.conns[event.conn], w.desktop, w.theme, event.ok, event.count);
    }
  }

  lemma ReaderMovesItself(conn: Connection, desktop: Desktop, theme: Theme, ok: bool, count: nat)
    ensures ReaderAfter(conn, desktop, theme, ok, count).system == conn.system
  {
  }

  lemma OthersKeepTheirLocks(w: World, event: Event, t: Thread)
    requires Enabled(w, event) && t != Owner(event)
    ensures Holds(Next(w, event), t) == Holds(w, t)
  {
    MovesOnlyItsOwner(w, event);
    HeldWhereItIs(w, Next(w, event), t);
  }

  lemma HeldWhereItIs(w: World, after: World, t: Thread)
    requires match t
             case Wayland => after.wayland == w.wayland
             case Server => after.server == w.server
             case Reader(c) => At(after, c) == At(w, c)
             case System(c) => SystemOf(after, c) == SystemOf(w, c)
    ensures Holds(after, t) == Holds(w, t)
  {
  }

  lemma TakesOnlyWhatItWants(w: World, event: Event)
    requires Enabled(w, event)
    ensures var t := Owner(event);
            forall lock :: lock in Holds(Next(w, event), t) && lock !in Holds(w, t) ==>
              Stepper(event) == Some(t) && Wants(w, t) == Some(lock)
  {
    if event.ReaderSteps? {
      ReaderTakes(w.conns[event.conn], event.conn, w.desktop, w.theme, event.ok, event.count);
    }
  }

  lemma ReaderTakes(conn: Connection, c: Conn, desktop: Desktop, theme: Theme, ok: bool, count: nat)
    ensures var wanted := WantedAt(conn.at, c);
            HeldAt(ReaderAfter(conn, desktop, theme, ok, count).at, c)
            <= HeldAt(conn.at, c) + (if wanted.Some? then {wanted.value} else {})
  {
    match conn.at
    case InHost(said) => AppliedHolds(conn, said, desktop, theme, count, c);
    case _ =>
  }

  lemma AppliedHolds(conn: Connection, said: Said, desktop: Desktop, theme: Theme, count: nat, c: Conn)
    ensures HeldAt(Applied(conn, said, desktop, theme, count).at, c) == {}
  {
  }

  lemma StepExclusive(w: World, event: Event)
    requires Exclusive(w) && Enabled(w, event)
    ensures Exclusive(Next(w, event))
  {
    var after := Next(w, event);
    forall s, t, lock | lock in Holds(after, s) && lock in Holds(after, t) ensures s == t {
      if s != Owner(event) {
        OthersKeepTheirLocks(w, event, s);
      }
      if t != Owner(event) {
        OthersKeepTheirLocks(w, event, t);
      }
      TakesOnlyWhatItWants(w, event);
    }
  }

  /** A step of `t`, where it may take one. */
  function StepOf(t: Thread): Event {
    match t
    case Wayland => WaylandSteps(0)
    case Server => ServerSteps(true)
    case Reader(c) => ReaderSteps(c, true, 0)
    case System(c) => SystemSteps(c)
  }

  /**
   * A lock that is held is held by a thread that can go on, or that waits for a
   * thread that can: some thread always steps.
   */
  lemma {:induction false} HeldLockIsLetGo(w: World, lock: Lock)
    requires !Free(w, lock)
    ensures exists t :: Enabled(w, StepOf(t)) && Holds(w, t) != {}
    decreases 2 - lock.Rank()
  {
    var t :| lock in Holds(w, t);
    if Wants(w, t).Some? && !Free(w, Wants(w, t).value) {
      AcquiresInOrder(w, t);
      HeldLockIsLetGo(w, Wants(w, t).value);
    } else {
      assert Stepper(StepOf(t)) == Some(t);
      assert Enabled(w, StepOf(t));
    }
  }

  // The broadcast list.

  predicate HasDisplays(replies: seq<Message>) {
    exists i | 0 <= i < |replies| :: replies[i].Displays?
  }

  /** Where a reader is fits its flags. */
  ghost predicate Sensible(conn: Connection) {
    && (conn.ready ==> !conn.app)
    && (conn.joined ==> !conn.app)
    && (conn.joined && !conn.ready ==>
         match conn.at
         case WantsChromes(use, _) => use.Leave?
         case InChromes(use, _) => use.Leave?
         case _ => false)
    && match conn.at
       case WantsHost(_) => !conn.app
       case InHost(_) => !conn.app
       case WantsChromes(Join, replies) => conn.ready && !conn.joined && HasDisplays(replies)
       case InChromes(Join, replies) => conn.ready && !conn.joined && HasDisplays(replies)
       case WantsChromes(Leave, _) => !conn.ready
       case InChromes(Leave, _) => !conn.ready
       case TellingTheme(told) => forall m :: m in told ==> !m.Displays?
       case Freshening(replies) => replies != [] && replies[0].Displays?
       case Fresh(_, replies) => replies != [] && replies[0].Displays?
       case _ => true
  }

  /** The answer with the displays is still to be written, or the connection is ending. */
  ghost predicate OwesDisplays(at: ReaderAt) {
    match at
    case WantsChromes(_, replies) => HasDisplays(replies)
    case InChromes(_, replies) => HasDisplays(replies)
    case WantsFocus(replies) => HasDisplays(replies)
    case InFocus(replies) => HasDisplays(replies)
    case TellingFocus(_, replies) => HasDisplays(replies)
    case Answering(replies) => HasDisplays(replies)
    case Writing(replies) => HasDisplays(replies)
    case Freshening(_) => true
    case Fresh(_, _) => true
    case WantsOut => true
    case GoingOut => true
    case _ => false
  }

  ghost predicate Distinct(list: seq<Conn>) {
    forall i, j :: 0 <= i < j < |list| ==> list[i] != list[j]
  }

  function Todo(w: World): seq<Conn> {
    match w.server
    case SSending(_, todo) => todo
    case SWriting(_, todo) => todo
    case _ => []
  }

  /** A listed chrome has joined, is not an app's, and is owed its handshake until it is answered. */
  ghost predicate ListedRight(w: World, c: Conn) {
    && c in w.conns && w.conns[c].joined && !w.conns[c].at.Gone?
    && (!w.conns[c].answered ==> OwesDisplays(w.conns[c].at))
  }

  ghost predicate ListKept(w: World) {
    && (forall c :: c in w.conns ==> Sensible(w.conns[c]))
    && Distinct(w.chromes)
    && (forall c :: c in w.chromes ==> ListedRight(w, c))
    && Distinct(Todo(w)) && (forall c :: c in Todo(w) ==> c in w.chromes)
    && (w.server.SWriting? ==> w.server.todo != [])
  }

  lemma DropsOne(list: seq<Conn>, c: Conn)
    requires Distinct(list)
    ensures Distinct(Without(list, c)) && forall x :: x in Without(list, c) <==> x in list && x != c
  {
    FilterDistinct(list, NotThe(c));
  }

  // A step of each thread keeps the list right.

  lemma HeardSensible(conn: Connection, said: Said)
    requires Sensible(conn) && conn.at.Reading?
    ensures Sensible(Heard(conn, said))
    ensures var after := Heard(conn, said);
            after.joined == conn.joined && after.answered == conn.answered && !after.at.Gone?
  {
  }

  lemma ReaderSensible(conn: Connection, desktop: Desktop, theme: Theme, ok: bool, count: nat)
    requires Sensible(conn)
    ensures Sensible(ReaderAfter(conn, desktop, theme, ok, count))
  {
    hide Applied, HasDisplays;
    match conn.at
    case InHost(said) => AppliedSensible(conn, said, desktop, theme, count);
    case _ =>
  }

  lemma AppliedSensible(conn: Connection, said: Said, desktop: Desktop, theme: Theme, count: nat)
    requires Sensible(conn) && conn.at == InHost(said)
    ensures Sensible(Applied(conn, said, desktop, theme, count))
  {
    hide HasDisplays, Others;
    HelloHasDisplays(desktop, theme, count);
  }

  lemma HelloHasDisplays(desktop: Desktop, theme: Theme, count: nat)
    ensures HasDisplays(HelloReplies(desktop, theme, count))
  {
    assert HelloReplies(desktop, theme, count)[1].Displays?;
  }

  lemma TailHasDisplays(replies: seq<Message>)
    requires HasDisplays(replies) && !replies[0].Displays?
    ensures HasDisplays(replies[1..])
  {
    var i :| 0 <= i < |replies| && replies[i].Displays?;
    assert replies[1..][i - 1].Displays?;
  }

  /** A reader whose connection stays listed stays right: it goes on owing the displays until it writes them. */
  lemma ReaderListedRight(conn: Connection, desktop: Desktop, theme: Theme, ok: bool, count: nat)
    requires Sensible(conn) && conn.joined && !conn.at.Gone? && (!conn.answered ==> OwesDisplays(conn.at))
    requires !conn.at.GoingOut? && !(conn.at.InChromes? && conn.at.use.Leave?)
    ensures var after := ReaderAfter(conn, desktop, theme, ok, count);
            after.joined && !after.at.Gone? && (!after.answered ==> OwesDisplays(after.at))
  {
    if conn.at.Writing? && HasDisplays(conn.at.replies) && !conn.at.replies[0].Displays? {
      TailHasDisplays(conn.at.replies);
    }
  }

  lemma StepListKept(w: World, event: Event)
    requires Exclusive(w) && ListKept(w) && Enabled(w, event)
    ensures ListKept(Next(w, event))
  {
    hide ListKept, ServerNext, ReaderNext, Exclusive;
    match event
    case ServerSteps(ok) => ServerListKept(w, ok);
    case ReaderSteps(c, ok, count) => ReaderListKept(w, c, ok, count);
    case Says(c, said) => HeardListKept(w, c, said);
    case _ => OthersListKept(w, event);
  }

  lemma OthersListKept(w: World, event: Event)
    requires ListKept(w) && Enabled(w, event) && !event.ServerSteps? && !event.ReaderSteps? && !event.Says?
    ensures ListKept(Next(w, event))
  {
    hide WaylandNext;
    match event
    case Connects(c) => ConnListKept(w, c, Next(w, event).conns[c]);
    case HangsUp(c) => ConnListKept(w, c, Next(w, event).conns[c]);
    case SystemSteps(c) => ConnListKept(w, c, Next(w, event).conns[c]);
    case WaylandStarts(_) =>
    case WaylandSteps(count) => WaylandListKept(w, count);
  }

  lemma WaylandListKept(w: World, count: nat)
    requires ListKept(w)
    ensures ListKept(WaylandNext(w, count))
  {
    hide ThemeTold, Sensible, OwesDisplays;
  }

  lemma ConnListKept(w: World, c: Conn, conn: Connection)
    requires ListKept(w) && Sensible(conn)
    requires c in w.chromes ==> conn.joined && !conn.at.Gone? && (!conn.answered ==> OwesDisplays(conn.at))
    ensures ListKept(w.(conns := w.conns[c := conn]))
  {
    hide Sensible, OwesDisplays;
  }

  lemma HeardListKept(w: World, c: Conn, said: Said)
    requires ListKept(w) && c in w.conns && w.conns[c].at.Reading?
    ensures ListKept(w.(conns := w.conns[c := Heard(w.conns[c], said)]))
  {
    HeardSensible(w.conns[c], said);
    assert c in w.chromes ==> ListedRight(w, c);
    ConnListKept(w, c, Heard(w.conns[c], said));
  }

  lemma ServerListKept(w: World, ok: bool)
    requires ListKept(w)
    ensures ListKept(ServerNext(w, ok))
  {
    if w.server.SWriting? && !ok {
      DropsOne(w.chromes, w.server.todo[0]);
    }
  }

  /** While a reader changes the list, the server is not going through it. */
  lemma ListIsNotInUse(w: World, c: Conn)
    requires Exclusive(w) && c in w.conns && Chromes in HeldAt(w.conns[c].at, c)
    ensures Todo(w) == [] && !w.server.SSending? && !w.server.SWriting?
  {
    assert Chromes in Holds(w, Reader(c));
    assert w.server.SSending? || w.server.SWriting? ==> Chromes in Holds(w, Server);
  }

  lemma ReaderListKept(w: World, c: Conn, ok: bool, count: nat)
    requires Exclusive(w) && ListKept(w) && c in w.conns && !w.conns[c].at.Gone?
    ensures ListKept(ReaderNext(w, c, ok, count))
  {
    var conn, after := w.conns[c], ReaderNext(w, c, ok, count);
    ReaderSensible(conn, w.desktop, w.theme, ok, count);
    if conn.at.InChromes? || conn.at.GoingOut? {
      ListIsNotInUse(w, c);
      DropsOne(w.chromes, c);
    }
    if c in w.chromes && c in after.chromes {
      ReaderListedRight(conn, w.desktop, w.theme, ok, count);
    }
  }

  // The desktop every chrome is told.

  function IsDisplays(): Message -> bool { (m: Message) => m.Displays? }

  /** The last of `messages` of a kind. */
  function Latest(messages: seq<Message>, kind: Message -> bool): (r: Option<Message>)
    ensures r.Some? ==> r.value in messages && kind(r.value)
  {
    if messages == [] then None
    else
      var later := Latest(messages[1..], kind);
      if later.Some? then later else if kind(messages[0]) then Some(messages[0]) else None
  }

  lemma {:induction false} LatestOfBoth(a: seq<Message>, b: seq<Message>, kind: Message -> bool)
    ensures Latest(a + b, kind) == if Latest(b, kind).Some? then Latest(b, kind) else Latest(a, kind)
  {
    if a == [] {
      assert a + b == b;
    } else {
      assert (a + b)[1..] == a[1..] + b;
      LatestOfBoth(a[1..], b, kind);
    }
  }

  lemma LatestOfOne(message: Message, kind: Message -> bool)
    ensures Latest([message], kind) == if kind(message) then Some(message) else None
  {
  }

  lemma {:induction false} LatestOfNone(messages: seq<Message>, kind: Message -> bool)
    requires forall m :: m in messages ==> !kind(m)
    ensures Latest(messages, kind).None?
  {
    if messages != [] {
      LatestOfNone(messages[1..], kind);
    }
  }

  /** What is still to be written to every listed chrome, in order: taken from the queue, in it, or about to be. */
  function Coming(w: World): seq<Message> {
    (if w.server.SWantsChromes? then [w.server.message] else [])
    + w.queue
    + (if w.wayland.WTelling? then w.wayland.told else [])
  }

  /** A displays being written to the listed chromes has still to be written to `c`. */
  ghost predicate OnItsWay(w: World, c: Conn) {
    (w.server.SSending? || w.server.SWriting?) && w.server.message.Displays? && c in w.server.todo
  }

  /** The last displays to come, or else the one being written, is the current desktop. */
  ghost predicate TellsTheLatest(w: World) {
    && (Latest(Coming(w), IsDisplays()).Some? ==> Latest(Coming(w), IsDisplays()).value == Displays(w.desktop))
    && (Latest(Coming(w), IsDisplays()).None? && (w.server.SSending? || w.server.SWriting?)
        && w.server.message.Displays? ==>
         w.server.message.desktop == w.desktop)
  }

  ghost predicate ShowsNow(conn: Connection, desktop: Desktop) {
    && (conn.answered ==> conn.shown == Some(desktop))
    && (conn.at.Fresh? ==> conn.at.desktop == desktop)
  }

  /** With no displays on its way to it, an answered chrome shows the current desktop, and an answer carries it. */
  ghost predicate Current(w: World, c: Conn) {
    c in w.conns && Latest(Coming(w), IsDisplays()).None? && !OnItsWay(w, c) ==>
      ShowsNow(w.conns[c], w.desktop)
  }

  ghost predicate Converging(w: World) {
    TellsTheLatest(w) && forall c :: c in w.chromes ==> Current(w, c)
  }

  lemma WaylandConverges(w: World, count: nat)
    requires Converging(w)
    ensures Converging(WaylandNext(w, count))
  {
    hide Latest, ThemeTold, ShowsNow;
    var after := WaylandNext(w, count);
    if w.wayland.WInHost? {
      InHostConverges(w, w.wayland.plan, count);
    } else {
      assert Coming(after) == Coming(w);
      forall c | c in after.chromes ensures Current(after, c) {
        assert Current(w, c);
      }
    }
  }

  lemma InHostConverges(w: World, plan: Plan, count: nat)
    requires Converging(w) && w.wayland == WInHost(plan)
    ensures Converging(WaylandNext(w, count))
  {
    hide Latest, ShowsNow;
    var after := WaylandNext(w, count);
    var told := after.wayland.told;
    LatestOfBoth(Coming(w), told, IsDisplays());
    assert Coming(w) + told == Coming(after);
    if plan.Describe? {
      LatestOfOne(told[0], IsDisplays());
    } else {
      LatestOfNone(told, IsDisplays());
      forall c | c in after.chromes ensures Current(after, c) {
        assert Current(w, c);
      }
    }
  }

  /** Where the server has the writer, the reader does not. */
  lemma WriterIsTaken(w: World, c: Conn)
    requires Exclusive(w) && w.server.SWriting? && w.server.todo != [] && w.server.todo[0] == c
    ensures c in w.conns ==> !w.conns[c].at.Fresh?
  {
    assert WriterOf(c) in Holds(w, Server);
    assert c in w.conns && w.conns[c].at.Fresh? ==> WriterOf(c) in Holds(w, Reader(c));
  }

  lemma ServerConverges(w: World, ok: bool)
    requires Exclusive(w) && ListKept(w) && Converging(w)
    ensures Converging(ServerNext(w, ok))
  {
    hide Exclusive, ListKept, Latest, ShowsNow;
    var after := ServerNext(w, ok);
    match w.server
    case SIdle =>
      assert Coming(after) == Coming(w);
    case SWantsChromes(message) =>
      LatestOfBoth([message], Coming(after), IsDisplays());
      LatestOfOne(message, IsDisplays());
      assert [message] + Coming(after) == Coming(w);
    case SSending(_, _) =>
      assert Coming(after) == Coming(w);
    case SWriting(_, _) => WriteConverges(w, ok);
  }

  lemma WriteConverges(w: World, ok: bool)
    requires Exclusive(w) && ListKept(w) && Converging(w) && w.server.SWriting?
    ensures Converging(ServerNext(w, ok))
  {
    hide Latest;
    var after, todo := ServerNext(w, ok), w.server.todo;
    assert Coming(after) == Coming(w);
    WriterIsTaken(w, todo[0]);
    DropsOne(w.chromes, todo[0]);
    forall c | c in after.chromes ensures Current(after, c) {
      assert Current(w, c);
      assert todo == [todo[0]] + todo[1..];
    }
  }

  lemma AppliedShowsNow(conn: Connection, said: Said, desktop: Desktop, theme: Theme, count: nat)
    requires ShowsNow(conn, desktop)
    ensures ShowsNow(Applied(conn, said, desktop, theme, count), desktop)
  {
  }

  lemma ReaderShowsNow(conn: Connection, desktop: Desktop, theme: Theme, ok: bool, count: nat)
    ensures ShowsNow(conn, desktop) || (conn.at.InChromes? && conn.at.use.Join?) ==>
              ShowsNow(ReaderAfter(conn, desktop, theme, ok, count), desktop)
  {
    hide Applied;
    if ShowsNow(conn, desktop) && conn.at.InHost? {
      AppliedShowsNow(conn, conn.at.said, desktop, theme, count);
    }
  }

  lemma ReaderConverges(w: World, c: Conn, ok: bool, count: nat)
    requires ListKept(w) && Converging(w) && c in w.conns
    ensures Converging(ReaderNext(w, c, ok, count))
  {
    hide ListedRight, Latest, ReaderAfter, ShowsNow, Coming;
    var after := ReaderNext(w, c, ok, count);
    ReaderShowsNow(w.conns[c], w.desktop, w.theme, ok, count);
    TellsOthers(w, after, Tells(w.conns[c].at));
    forall x | x in after.chromes ensures Current(after, x) {
      if x in w.chromes {
        assert Current(w, x);
      }
    }
  }

  lemma TellsOthers(w: World, after: World, told: seq<Message>)
    requires after.server == w.server && after.wayland == w.wayland && after.queue == w.queue + told
    requires forall m :: m in told ==> !m.Displays?
    ensures Latest(Coming(after), IsDisplays()) == Latest(Coming(w), IsDisplays())
  {
    var first := if w.server.SWantsChromes? then [w.server.message] else [];
    var last := if w.wayland.WTelling? then w.wayland.told else [];
    assert Coming(w) == (first + w.queue) + last;
    assert Coming(after) == ((first + w.queue) + told) + last;
    LatestOfBoth(first + w.queue, last, IsDisplays());
    LatestOfBoth((first + w.queue) + told, last, IsDisplays());
    LatestOfBoth(first + w.queue, told, IsDisplays());
    LatestOfNone(told, IsDisplays());
  }

  lemma StepConverges(w: World, event: Event)
    requires Exclusive(w) && ListKept(w) && Converging(w) && Enabled(w, event)
    ensures Converging(Next(w, event))
  {
    var after := Next(w, event);
    match event
    case WaylandSteps(count) => WaylandConverges(w, count);
    case ServerSteps(ok) => ServerConverges(w, ok);
    case ReaderSteps(c, ok, count) => ReaderConverges(w, c, ok, count);
    case _ =>
      assert Coming(after) == Coming(w);
      forall c | c in after.chromes ensures Current(after, c) {
        assert Current(w, c);
      }
  }

  // Whole runs.

  ghost predicate Inv(w: World) {
    Exclusive(w) && ListKept(w) && Converging(w)
  }

  lemma StepKeeps(w: World, event: Event)
    requires Inv(w) && Enabled(w, event)
    ensures Inv(Next(w, event))
  {
    StepExclusive(w, event);
    StepListKept(w, event);
    StepConverges(w, event);
  }

  lemma {:induction false} RunKeeps(w: World, events: seq<Event>, end: World)
    requires Inv(w) && RunsTo(w, events, end)
    ensures Inv(end)
    decreases |events|
  {
    if events != [] {
      StepKeeps(w, events[0]);
      RunKeeps(Next(w, events[0]), events[1..], end);
    }
  }

  lemma ReachableKeeps(w: World)
    requires Reachable(w)
    ensures Inv(w)
  {
    var start, events :| Initial(start) && RunsTo(start, events, w);
    RunKeeps(start, events, w);
  }

  /**
   * No lock is ever held by two threads, no threads wait on each other in a
   * cycle, and whenever a thread waits for a held lock, some thread that holds
   * one can step.
   */
  lemma NeverDeadlocks(w: World, t: Thread, threads: seq<Thread>)
    requires Reachable(w)
    ensures Exclusive(w) && !WaitCycle(w, threads)
    ensures Wants(w, t).Some? && !Free(w, Wants(w, t).value) ==>
              exists s :: Enabled(w, StepOf(s)) && Holds(w, s) != {}
  {
    ReachableKeeps(w);
    NoWaitCycle(w, threads);
    if Wants(w, t).Some? && !Free(w, Wants(w, t).value) {
      HeldLockIsLetGo(w, Wants(w, t).value);
    }
  }

  /** The broadcast list has no connection twice, none that has not joined, and none of an app. */
  lemma ListedOnceWhileJoined(w: World)
    requires Reachable(w)
    ensures Distinct(w.chromes)
    ensures forall c :: c in w.chromes ==> c in w.conns && w.conns[c].joined && !w.conns[c].app
  {
    ReachableKeeps(w);
    forall c | c in w.chromes ensures c in w.conns && w.conns[c].joined && !w.conns[c].app {
      assert ListedRight(w, c) && Sensible(w.conns[c]);
    }
  }

  /**
   * At every moment, a listed chrome that has been answered shows the host's
   * current desktop, or displays carrying it are being written, queued or about
   * to be queued.
   */
  lemma ShownOrComing(w: World, c: Conn)
    requires Reachable(w) && c in w.chromes && c in w.conns && w.conns[c].answered
    ensures || w.conns[c].shown == Some(w.desktop)
            || Latest(Coming(w), IsDisplays()) == Some(Displays(w.desktop))
            || (OnItsWay(w, c) && w.server.message == Displays(w.desktop))
  {
    ReachableKeeps(w);
    assert Current(w, c);
  }

  /** Every thread is done with what it was doing, and nothing is queued. */
  predicate AtRest(w: World) {
    && w.wayland.WIdle? && w.server.SIdle? && w.queue == []
    && forall c | c in w.conns :: w.conns[c].at.Reading? || w.conns[c].at.Gone?
  }

  /** `c` was answered, and its page shows the host's current desktop. */
  ghost predicate ShowsTheDesktop(w: World, c: Conn) {
    c in w.conns && w.conns[c].answered && w.conns[c].shown == Some(w.desktop)
  }

  lemma AtRestShows(w: World, c: Conn)
    requires Inv(w) && AtRest(w) && c in w.chromes
    ensures ShowsTheDesktop(w, c)
  {
    assert ListedRight(w, c);
    assert Current(w, c);
    assert Coming(w) == [];
  }

  /** At rest, every chrome in the broadcast list was answered and shows the host's current desktop. */
  lemma AtRestAllShowTheDesktop(w: World, c: Conn)
    requires Reachable(w) && AtRest(w) && c in w.chromes
    ensures ShowsTheDesktop(w, c)
  {
    ReachableKeeps(w);
    AtRestShows(w, c);
  }
}
